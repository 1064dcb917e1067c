/** A reader of JSON (RFC 8259) without white space, against which the canonical text is checked. */
module Reading {
  import opened Orders
  import opened Canonical

  // ---------- reading a literal back ----------

  /** The value of a hexadecimal digit, or 16. */
  function HexValue(c: char): nat {
    if '0' <= c <= '9' then c as int - '0' as int
    else if 'a' <= c <= 'f' then c as int - 'a' as int + 10
    else if 'A' <= c <= 'F' then c as int - 'A' as int + 10
    else 16
  }

  /** The character after a backslash, for the escapes of one letter. */
  function Unescaped(c: char): string {
    if c in {'"', '\\', '/'} then [c]
    else if c == 'b' then "\U{8}"
    else if c == 'f' then "\U{C}"
    else if c == 'n' then "\n"
    else if c == 'r' then "\r"
    else if c == 't' then "\t"
    else ""
  }

  /** The next character of a string literal and what follows it, as RFC 8259, section 7, reads it; the
      character is missing where the literal ends or is malformed. */
  function NextChar(t: string): (r: (string, string))
    ensures r.0 != "" ==> |r.1| < |t|
  {
    if t == "" || t[0] == '"' || IsControl(t[0]) then ("", t)
    else if t[0] != '\\' then ([t[0]], t[1..])
    else if |t| >= 2 && t[1] != 'u' then (Unescaped(t[1]), t[2..])
    else if |t| < 6 || HexValue(t[2]) == 16 || HexValue(t[3]) == 16 || HexValue(t[4]) == 16 || HexValue(t[5]) == 16 then
      ("", t)
    else
      var code := 4096 * HexValue(t[2]) + 256 * HexValue(t[3]) + 16 * HexValue(t[4]) + HexValue(t[5]);
      if 0xD800 <= code < 0xE000 then ("", t) else ([code as char], t[6..])
  }

  /** The text of a string literal after its opening quote, read up to the closing quote. */
  function ReadLiteral(t: string): (r: (string, string))
    ensures |r.1| <= |t|
    decreases |t|
  {
    var (c, rest) := NextChar(t);
    if c == "" then ("", t)
    else
      var (s, after) := ReadLiteral(rest);
      (c + s, after)
  }

  lemma EscapeIsRead(c: char, x: string)
    ensures NextChar(EscapeChar(c) + x) == ([c], x)
  {
    var p := EscapeChar(c);
    assert (p + x)[0] == p[0] && (p + x)[|p|..] == x;
    if |p| >= 2 { assert (p + x)[1] == p[1]; }
    if |p| == 6 {
      assert (p + x)[2] == p[2] && (p + x)[3] == p[3] && (p + x)[4] == p[4] && (p + x)[5] == p[5];
      assert c as int == 16 * (c as int / 16) + c as int % 16;
    }
  }

  lemma ReadOneMore(c: char, s: string, rest: string, x: string)
    requires ReadLiteral(rest) == (s, "\"" + x)
    ensures ReadLiteral(EscapeChar(c) + rest) == ([c] + s, "\"" + x)
  {
    EscapeIsRead(c, rest);
  }

  lemma {:induction false} LiteralIsReadBack(s: string, x: string)
    ensures ReadLiteral(Closing(s, x)) == (s, "\"" + x)
  {
    if s == "" {
      assert Closing(s, x) == "\"" + x;
    } else {
      LiteralIsReadBack(s[1..], x);
      ClosingUnfolds(s, x);
      ReadOneMore(s[0], s[1..], Closing(s[1..], x), x);
      assert s == [s[0]] + s[1..];
    }
  }

  /** A quoted string is a literal that reads back as the string, up to its closing quote. */
  lemma QuoteIsReadBack(s: string, x: string)
    ensures Quote(s)[0] == '"' && ReadLiteral((Quote(s) + x)[1..]) == (s, "\"" + x)
  {
    assert (Quote(s) + x)[1..] == Closing(s, x);
    LiteralIsReadBack(s, x);
  }

  // ---------- reading a value ----------

  /** A value and what follows it, or a text that does not begin with a value. */
  datatype Read = Read(value: Json, rest: string) | Malformed

  /** The text after a literal name. */
  function ReadName(t: string, name: string, v: Json): (r: Read)
    ensures r.Read? ==> |r.rest| == |t| - |name|
  {
    if name <= t then Read(v, t[|name|..]) else Malformed
  }

  /** How many characters of a number the text begins with. */
  function NumberEnd(t: string): (n: nat)
    ensures n <= |t|
  {
    if t == "" || !NumberChar(t[0]) then 0 else 1 + NumberEnd(t[1..])
  }

  function ReadValue(t: string): (r: Read)
    ensures r.Read? ==> |r.rest| < |t|
    decreases |t|, 0
  {
    if t == "" then Malformed
    else if t[0] == 'n' then ReadName(t, "null", Null)
    else if t[0] == 't' then ReadName(t, "true", Bool(true))
    else if t[0] == 'f' then ReadName(t, "false", Bool(false))
    else if t[0] == '"' then
      var (s, after) := ReadLiteral(t[1..]);
      if after == "" || after[0] != '"' then Malformed else Read(Str(s), after[1..])
    else if t[0] == '[' then
      if |t| > 1 && t[1] == ']' then Read(Arr([]), t[2..]) else ReadItems(t[1..], [])
    else if t[0] == '{' then
      if |t| > 1 && t[1] == '}' then Read(Obj([]), t[2..]) else ReadFields(t[1..], [])
    else if NumberChar(t[0]) then Read(Num(t[..NumberEnd(t)]), t[NumberEnd(t)..])
    else Malformed
  }

  /** The items of an array, after those already read. */
  function ReadItems(t: string, items: seq<Json>): (r: Read)
    ensures r.Read? ==> |r.rest| < |t|
    decreases |t|, 1
  {
    match ReadValue(t)
    case Malformed => Malformed
    case Read(v, rest) =>
      if rest == "" then Malformed
      else if rest[0] == ',' then ReadItems(rest[1..], items + [v])
      else if rest[0] == ']' then Read(Arr(items + [v]), rest[1..])
      else Malformed
  }

  /** The fields of an object, after those already read. */
  function ReadFields(t: string, fields: seq<Field>): (r: Read)
    ensures r.Read? ==> |r.rest| < |t|
    decreases |t|, 1
  {
    if t == "" || t[0] != '"' then Malformed
    else
      var (key, after) := ReadLiteral(t[1..]);
      if |after| < 2 || after[0] != '"' || after[1] != ':' then Malformed
      else
        match ReadValue(after[2..])
        case Malformed => Malformed
        case Read(v, rest) =>
          if rest == "" then Malformed
          else if rest[0] == ',' then ReadFields(rest[1..], fields + [Field(key, v)])
          else if rest[0] == '}' then Read(Obj(fields + [Field(key, v)]), rest[1..])
          else Malformed
  }

  lemma {:induction false} NumberIsRead(t: string, x: string)
    requires (forall i :: 0 <= i < |t| ==> NumberChar(t[i])) && Ended(x)
    ensures NumberEnd(t + x) == |t|
  {
    if t == "" {
      assert t + x == x;
    } else {
      assert (t + x)[0] == t[0] && (t + x)[1..] == t[1..] + x;
      NumberIsRead(t[1..], x);
    }
  }

  lemma NameIsRead(t: string, x: string, v: Json)
    ensures ReadName(t + x, t, v) == Read(v, x)
  {
    assert (t + x)[..|t|] == t && (t + x)[|t|..] == x;
  }

  /** A text that is read as this value, whatever follows it. */
  ghost predicate Reads(t: string, w: Json) {
    forall x {:trigger t + x} :: Ended(x) ==> ReadValue(t + x) == Read(w, x)
  }

  lemma AtomIsRead(less: (string, string) -> bool, v: Json, x: string)
    requires WellFormed(v) && !v.Arr? && !v.Obj? && Ended(x)
    ensures ReadValue(Text(less, v) + x) == Read(v, x)
  {
    var t := Text(less, v);
    FirstChar(less, v);
    assert (t + x)[0] == t[0];
    match v
    case Null => NameIsRead("null", x, v);
    case Bool(b) => NameIsRead(t, x, v);
    case Num(_) =>
      NumberIsRead(t, x);
      assert (t + x)[..|t|] == t && (t + x)[|t|..] == x;
    case Str(s) =>
      QuoteIsReadBack(s, x);
      assert ("\"" + x)[1..] == x;
  }

  /** From the `k`-th part on, a printed list is that part and what follows it. */
  lemma PartsFrom(parts: seq<string>, k: nat, close: char, x: string)
    requires k < |parts| && close in {']', '}'}
    ensures var rest := Rest(parts[k..], close, x);
            && Commas(parts[k..]) + [close] + x == parts[k] + rest && Ended(rest) && rest != ""
            && rest[0] == (if k + 1 < |parts| then ',' else close)
            && rest[1..] == if k + 1 < |parts| then Commas(parts[k + 1..]) + [close] + x else x
  {
    CommasUnfold(parts[k..], close, x);
    if k + 1 < |parts| { assert parts[k..][1..] == parts[k + 1..]; }
  }

  /** A printed item is read as its value. */
  lemma ItemIsRead(t: string, w: Json, rest: string, items: seq<Json>)
    requires Reads(t, w) && Ended(rest) && rest != "" && rest[0] in {',', ']'}
    ensures ReadItems(t + rest, items) ==
            if rest[0] == ',' then ReadItems(rest[1..], items + [w]) else Read(Arr(items + [w]), rest[1..])
  {
  }

  lemma {:induction false} ItemsAreRead(texts: seq<string>, ws: seq<Json>, k: nat, x: string)
    requires k < |texts| == |ws| && forall i :: 0 <= i < |ws| ==> Reads(texts[i], ws[i])
    ensures ReadItems(Commas(texts[k..]) + [']'] + x, ws[..k]) == Read(Arr(ws), x)
    decreases |ws| - k
  {
    PartsFrom(texts, k, ']', x);
    ItemIsRead(texts[k], ws[k], Rest(texts[k..], ']', x), ws[..k]);
    assert ws[..k] + [ws[k]] == ws[..k + 1];
    if k + 1 < |ws| {
      ItemsAreRead(texts, ws, k + 1, x);
    } else {
      assert ws[..k + 1] == ws;
    }
  }

  /** A printed field is read as its key and its value. */
  lemma FieldIsRead(e: Entry, w: Json, rest: string, fields: seq<Field>)
    requires Reads(e.text, w) && Ended(rest) && rest != "" && rest[0] in {',', '}'}
    ensures ReadFields(Render(e) + rest, fields) ==
            if rest[0] == ',' then ReadFields(rest[1..], fields + [Field(e.key, w)])
            else Read(Obj(fields + [Field(e.key, w)]), rest[1..])
  {
    var x := ":" + (e.text + rest);
    RenderSplits(e, rest);
    QuoteIsReadBack(e.key, x);
    assert ("\"" + x)[1] == ':' && ("\"" + x)[2..] == e.text + rest;
  }

  lemma {:induction false} FieldsAreRead(entries: seq<Entry>, fs: seq<Field>, k: nat, x: string)
    requires k < |entries| == |fs|
    requires forall i :: 0 <= i < |fs| ==> entries[i].key == fs[i].key && Reads(entries[i].text, fs[i].value)
    ensures ReadFields(Commas(RenderAll(entries)[k..]) + ['}'] + x, fs[..k]) == Read(Obj(fs), x)
    decreases |fs| - k
  {
    PartsFrom(RenderAll(entries), k, '}', x);
    FieldIsRead(entries[k], fs[k].value, Rest(RenderAll(entries)[k..], '}', x), fs[..k]);
    assert fs[..k] + [fs[k]] == fs[..k + 1];
    if k + 1 < |fs| {
      FieldsAreRead(entries, fs, k + 1, x);
    } else {
      assert fs[..k + 1] == fs;
    }
  }

  lemma InBrackets(open: char, inner: string, close: char, x: string)
    ensures var t := [open] + inner + [close] + x;
            && t[0] == open && t[1..] == inner + [close] + x
            && (inner == "" ==> t[1] == close && t[2..] == x)
  {
    assert [open] + inner + [close] + x == [open] + (inner + [close] + x);
  }

  lemma ArrayIsRead(less: (string, string) -> bool, items: seq<Json>, ws: seq<Json>)
    requires |ws| == |items| && forall i :: 0 <= i < |items| ==> WellFormed(items[i])
    requires forall i :: 0 <= i < |ws| ==> Reads(Text(less, items[i]), ws[i])
    ensures Reads(Text(less, Arr(items)), Arr(ws))
  {
    var texts := Texts(less, items);
    TextOfArray(less, items);
    ItemsAreParts(less, items);
    forall x | Ended(x) ensures ReadValue(Text(less, Arr(items)) + x) == Read(Arr(ws), x) {
      InBrackets('[', Commas(texts), ']', x);
      FirstOfList(texts, ']', x);
      if items != [] {
        ItemsAreRead(texts, ws, 0, x);
        assert texts[0..] == texts && ws[..0] == [];
      }
    }
  }

  lemma ObjectIsRead(less: (string, string) -> bool, fields: seq<Field>, fs: seq<Field>)
    requires var sorted := InKeyOrder(less, Entries(less, fields));
             |fs| == |sorted| && forall i :: 0 <= i < |fs| ==>
               sorted[i].key == fs[i].key && Reads(sorted[i].text, fs[i].value)
    ensures Reads(Text(less, Obj(fields)), Obj(fs))
  {
    var lines := Lines(less, fields);
    TextOfObject(less, fields);
    LinesAreParts(less, fields);
    forall x | Ended(x) ensures ReadValue(Text(less, Obj(fields)) + x) == Read(Obj(fs), x) {
      InBrackets('{', Commas(lines), '}', x);
      FirstOfList(lines, '}', x);
      if fs != [] {
        FieldsAreRead(InKeyOrder(less, Entries(less, fields)), fs, 0, x);
        assert lines[0..] == lines && fs[..0] == [];
      }
    }
  }

  // ---------- the canonical text reads back ----------

  /** `w` is `v` with the fields of every object by ascending key. */
  ghost predicate KeyOrdered(less: (string, string) -> bool, v: Json, w: Json)
    decreases v
  {
    match (v, w)
    case (Arr(a), Arr(b)) => |a| == |b| && forall i :: 0 <= i < |a| ==> KeyOrdered(less, a[i], b[i])
    case (Obj(a), Obj(b)) =>
      && |a| == |b| && (forall i, j :: 0 <= i < j < |b| ==> less(b[i].key, b[j].key))
      && forall i :: 0 <= i < |b| ==>
           exists k :: 0 <= k < |a| && a[k].key == b[i].key && KeyOrdered(less, a[k].value, b[i].value)
    case _ => v == w
  }

  /** The text of a value is read as `w`, which is the value in key order. */
  ghost predicate ReadAs(less: (string, string) -> bool, v: Json, w: Json) {
    KeyOrdered(less, v, w) && Reads(Text(less, v), w)
  }

  lemma ItemsReadBack(less: (string, string) -> bool, items: seq<Json>, n: nat) returns (ws: seq<Json>)
    requires StrictTotal(less) && n <= |items| && forall i :: 0 <= i < |items| ==> WellFormed(items[i])
    ensures |ws| == n && forall i :: 0 <= i < n ==> ReadAs(less, items[i], ws[i])
    decreases items, n
  {
    if n == 0 {
      ws := [];
    } else {
      var front := ItemsReadBack(less, items, n - 1);
      var w := ReadsBack(less, items[n - 1]);
      ws := front + [w];
    }
  }

  /** The `i`-th printed field of an object is read as `f`. */
  ghost predicate FieldReadAs(less: (string, string) -> bool, fields: seq<Field>, i: nat, f: Field)
    requires i < |InKeyOrder(less, Entries(less, fields))|
  {
    var e := InKeyOrder(less, Entries(less, fields))[i];
    && e.key == f.key && Reads(e.text, f.value)
    && exists k :: 0 <= k < |fields| && fields[k].key == f.key && KeyOrdered(less, fields[k].value, f.value)
  }

  lemma FieldsReadBack(less: (string, string) -> bool, fields: seq<Field>, n: nat) returns (fs: seq<Field>)
    requires StrictTotal(less) && n <= |InKeyOrder(less, Entries(less, fields))|
    requires forall k :: 0 <= k < |fields| ==> WellFormed(fields[k].value)
    ensures |fs| == n && forall i :: 0 <= i < n ==> FieldReadAs(less, fields, i, fs[i])
    decreases fields, n
  {
    if n == 0 {
      fs := [];
    } else {
      var front := FieldsReadBack(less, fields, n - 1);
      var k := LineIsField(less, fields, n - 1);
      var w := ReadsBack(less, fields[k].value);
      fs := front + [Field(fields[k].key, w)];
      assert FieldReadAs(less, fields, n - 1, fs[n - 1]);
    }
  }

  lemma FieldsAreOrdered(less: (string, string) -> bool, fields: seq<Field>, fs: seq<Field>)
    requires StrictTotal(less) && DistinctKeys(fields) && |fs| == |InKeyOrder(less, Entries(less, fields))|
    requires forall i :: 0 <= i < |fs| ==> FieldReadAs(less, fields, i, fs[i])
    ensures KeyOrdered(less, Obj(fields), Obj(fs))
  {
    KeyOrderIsStrict(less, fields);
    forall i, j | 0 <= i < j < |fs| ensures less(fs[i].key, fs[j].key) {
      assert FieldReadAs(less, fields, i, fs[i]) && FieldReadAs(less, fields, j, fs[j]);
    }
  }

  /** The canonical text of a value is a JSON text that reads back as that value, with the fields of every
      object by ascending key, and the reader stops where the text ends. */
  lemma ReadsBack(less: (string, string) -> bool, v: Json) returns (w: Json)
    requires StrictTotal(less) && WellFormed(v)
    ensures KeyOrdered(less, v, w) && Reads(Text(less, v), w)
    decreases v
  {
    match v {
      case Arr(items) =>
        var ws := ItemsReadBack(less, items, |items|);
        ArrayIsRead(less, items, ws);
        w := Arr(ws);
      case Obj(fields) =>
        var fs := FieldsReadBack(less, fields, |InKeyOrder(less, Entries(less, fields))|);
        FieldsAreOrdered(less, fields, fs);
        ObjectIsRead(less, fields, fs);
        w := Obj(fs);
      case _ =>
        forall x | Ended(x) ensures ReadValue(Text(less, v) + x) == Read(v, x) { AtomIsRead(less, v, x); }
        w := v;
    }
  }
}
