/** `canonicalStringify` of trust-intelligence/provenance.js, with the string escaping of
    JSON.stringify (RFC 8259, section 7). */
module Canonical {
  import opened Orders

  /** A JSON value. Object fields come in insertion order; a number is its decimal text. */
  datatype Json =
    Null | Bool(b: bool) | Num(text: string) | Str(s: string) | Arr(items: seq<Json>) | Obj(fields: seq<Field>)

  datatype Field = Field(key: string, value: Json)

  // ---------- text of the parts ----------

  function HexDigit(n: nat): char
    requires n < 16
  {
    "0123456789abcdef"[n]
  }

  predicate IsControl(c: char) {
    c < ' '
  }

  function EscapeChar(c: char): string {
    if c == '"' then ['\\', '"']
    else if c == '\\' then ['\\', '\\']
    else if c == '\U{8}' then ['\\', 'b']
    else if c == '\t' then ['\\', 't']
    else if c == '\n' then ['\\', 'n']
    else if c == '\U{C}' then ['\\', 'f']
    else if c == '\r' then ['\\', 'r']
    else if IsControl(c) then ['\\', 'u', '0', '0', HexDigit(c as int / 16), HexDigit(c as int % 16)]
    else [c]
  }

  /** Only quotes, backslashes and control characters are escaped; five of these by a letter, the others by
      four lower-case hexadecimal digits. */
  lemma EscapesAre(c: char)
    ensures EscapeChar(c) == [c] <==> c as int >= 32 && c != '"' && c != '\\'
    ensures EscapeChar(c) != [c] ==> EscapeChar(c)[0] == '\\'
    ensures |EscapeChar(c)| == 2 <==> c in {'"', '\\', '\U{8}', '\t', '\n', '\U{C}', '\r'}
    ensures |EscapeChar(c)| > 2 ==> |EscapeChar(c)| == 6 && forall i :: 0 <= i < 6 ==> !('A' <= EscapeChar(c)[i] <= 'Z')
  {
    assert forall n: nat :: n < 16 ==> !('A' <= HexDigit(n) <= 'Z');
  }

  function Escape(s: string): string {
    if s == "" then "" else EscapeChar(s[0]) + Escape(s[1..])
  }

  function Quote(s: string): string {
    "\"" + Escape(s) + "\""
  }

  /** `parts.join(',')`. */
  function Commas(parts: seq<string>): string {
    if parts == [] then ""
    else if |parts| == 1 then parts[0]
    else parts[0] + "," + Commas(parts[1..])
  }

  /** A key with its value's text. */
  datatype Entry = Entry(key: string, text: string)

  predicate KeyLess(less: (string, string) -> bool, a: Entry, b: Entry) {
    less(a.key, b.key)
  }

  function InKeyOrder(less: (string, string) -> bool, entries: seq<Entry>): seq<Entry> {
    SortBy((a, b) => KeyLess(less, a, b), entries)
  }

  function Render(e: Entry): string {
    Quote(e.key) + ":" + e.text
  }

  function RenderAll(entries: seq<Entry>): seq<string> {
    seq(|entries|, i requires 0 <= i < |entries| => Render(entries[i]))
  }

  /** `canonicalStringify`. Its keys are sorted before the values are printed; sorting the printed
      entries gives the same text. */
  function Text(less: (string, string) -> bool, v: Json): string {
    match v
    case Null => "null"
    case Bool(b) => if b then "true" else "false"
    case Num(t) => t
    case Str(s) => Quote(s)
    case Arr(items) => "[" + Commas(seq(|items|, i requires 0 <= i < |items| => Text(less, items[i]))) + "]"
    case Obj(fields) =>
      "{" + Commas(RenderAll(InKeyOrder(less,
          seq(|fields|, i requires 0 <= i < |fields| => Entry(fields[i].key, Text(less, fields[i].value)))))) + "}"
  }

  function Texts(less: (string, string) -> bool, items: seq<Json>): seq<string> {
    seq(|items|, i requires 0 <= i < |items| => Text(less, items[i]))
  }

  function Entries(less: (string, string) -> bool, fields: seq<Field>): seq<Entry> {
    seq(|fields|, i requires 0 <= i < |fields| => Entry(fields[i].key, Text(less, fields[i].value)))
  }

  // ---------- escaping is a prefix code ----------

  lemma HexDigitIsInjective(m: nat, n: nat)
    requires m < 16 && n < 16 && HexDigit(m) == HexDigit(n)
    ensures m == n
  {
  }

  lemma EscapeCharIsPrefixCode(c: char, d: char, x: string, y: string)
    requires EscapeChar(c) + x == EscapeChar(d) + y
    ensures c == d && x == y
  {
    var p, q := EscapeChar(c), EscapeChar(d);
    assert (p + x)[0] == p[0] && (q + y)[0] == q[0];
    if |p| >= 2 && |q| >= 2 { assert (p + x)[1] == p[1] && (q + y)[1] == q[1]; }
    if |p| == 6 && |q| == 6 {
      assert (p + x)[4] == p[4] && (q + y)[4] == q[4] && (p + x)[5] == p[5] && (q + y)[5] == q[5];
      HexDigitIsInjective(c as int / 16, d as int / 16);
      HexDigitIsInjective(c as int % 16, d as int % 16);
    }
    assert |p| == |q|;
    assert (p + x)[|p|..] == x && (q + y)[|q|..] == y;
  }

  /** The text of a string literal after its opening quote, and what follows the literal. */
  function Closing(s: string, x: string): string {
    Escape(s) + "\"" + x
  }

  lemma ClosingUnfolds(s: string, x: string)
    ensures Closing(s, x) != "" && (Closing(s, x)[0] == '"' <==> s == "")
    ensures s == "" ==> Closing(s, x)[1..] == x
    ensures s != "" ==> Closing(s, x) == EscapeChar(s[0]) + Closing(s[1..], x)
  {
    if s != "" {
      NeverAQuote(s[0]);
      ConcatAssociates(EscapeChar(s[0]), Escape(s[1..]), "\"", x);
    }
  }

  lemma NeverAQuote(c: char)
    ensures EscapeChar(c) != "" && EscapeChar(c)[0] != '"'
  {
  }

  lemma ConcatAssociates(a: string, b: string, q: string, x: string)
    ensures a + b + q + x == a + (b + q + x)
    ensures a != "" ==> (a + b + q + x)[0] == a[0]
  {
  }

  /** A string literal ends at its closing quote and nowhere else. */
  lemma {:induction false} LiteralEnds(s: string, t: string, x: string, y: string)
    requires Closing(s, x) == Closing(t, y)
    ensures s == t && x == y
  {
    ClosingUnfolds(s, x);
    ClosingUnfolds(t, y);
    if s != "" {
      EscapeCharIsPrefixCode(s[0], t[0], Closing(s[1..], x), Closing(t[1..], y));
      LiteralEnds(s[1..], t[1..], x, y);
      assert s == [s[0]] + s[1..] && t == [t[0]] + t[1..];
    }
  }

  lemma QuoteIsPrefixCode(s: string, t: string, x: string, y: string)
    requires Quote(s) + x == Quote(t) + y
    ensures s == t && x == y
  {
    assert (Quote(s) + x)[1..] == Closing(s, x) && (Quote(t) + y)[1..] == Closing(t, y);
    LiteralEnds(s, t, x, y);
  }

  // ---------- the text of a value ends where the value ends ----------

  /** What may follow a value: nothing, a comma or a closing bracket. */
  predicate Ended(x: string) {
    x == "" || x[0] in {',', ']', '}'}
  }

  /** Neither text can be continued into the other. */
  ghost predicate Apart(s: string, t: string) {
    forall x, y {:trigger s + x, t + y} :: Ended(x) && Ended(y) && s + x == t + y ==> s == t && x == y
  }

  predicate NumberChar(c: char) {
    '0' <= c <= '9' || c in {'-', '+', '.', 'e', 'E'}
  }

  /** JSON.stringify's text of a finite number. */
  ghost predicate NumberText(t: string) {
    t != "" && ('0' <= t[0] <= '9' || t[0] == '-') && forall i :: 0 <= i < |t| ==> NumberChar(t[i])
  }

  ghost predicate DistinctKeys(fields: seq<Field>) {
    forall i, j :: 0 <= i < j < |fields| ==> fields[i].key != fields[j].key
  }

  ghost predicate WellFormed(v: Json) {
    match v
    case Num(t) => NumberText(t)
    case Arr(items) => forall i :: 0 <= i < |items| ==> WellFormed(items[i])
    case Obj(fields) => DistinctKeys(fields) && forall i :: 0 <= i < |fields| ==> WellFormed(fields[i].value)
    case _ => true
  }

  lemma NumbersApart(s: string, t: string)
    requires NumberText(s) && NumberText(t)
    ensures Apart(s, t)
  {
    forall x, y | Ended(x) && Ended(y) && s + x == t + y ensures s == t && x == y {
      NumberEnds(s, t, x, y);
      NumberEnds(t, s, y, x);
      assert s == (s + x)[..|s|] && t == (t + y)[..|t|];
      assert x == (s + x)[|s|..] && y == (t + y)[|t|..];
    }
  }

  lemma NumberEnds(s: string, t: string, x: string, y: string)
    requires NumberText(s) && NumberText(t) && Ended(x) && s + x == t + y
    ensures |t| <= |s|
  {
    var text := s + x;
    forall i | 0 <= i < |t| ensures NumberChar(text[i]) {
      assert (t + y)[i] == t[i];
    }
    assert x != "" ==> text[|s|] == x[0];
  }

  lemma QuotesApart(s: string, t: string)
    ensures Apart(Quote(s), Quote(t))
  {
    forall x, y | Ended(x) && Ended(y) && Quote(s) + x == Quote(t) + y ensures Quote(s) == Quote(t) && x == y {
      QuoteIsPrefixCode(s, t, x, y);
    }
  }

  // ---------- bracketed lists ----------

  /** No part is empty or could be taken for the closing bracket. */
  predicate Parts(parts: seq<string>) {
    forall i :: 0 <= i < |parts| ==> parts[i] != "" && parts[i][0] !in {',', ']', '}'}
  }

  ghost predicate AllApart(a: seq<string>, b: seq<string>) {
    forall i, j {:trigger a[i], b[j]} :: 0 <= i < |a| && 0 <= j < |b| ==> Apart(a[i], b[j])
  }

  /** What remains of a list after its first part. */
  function Rest(parts: seq<string>, close: char, x: string): string {
    if |parts| <= 1 then [close] + x else "," + (Commas(parts[1..]) + [close] + x)
  }

  lemma FourParts(a: string, b: string, c: string, d: string)
    ensures ((a + "," + b) + c) + d == a + ("," + ((b + c) + d))
  {
  }

  lemma ThreeParts(a: string, c: string, d: string)
    ensures (a + c) + d == a + (c + d)
  {
  }

  lemma CommasUnfold(parts: seq<string>, close: char, x: string)
    ensures parts != [] ==> Commas(parts) + [close] + x == parts[0] + Rest(parts, close, x)
    ensures parts == [] ==> Commas(parts) + [close] + x == [close] + x
  {
    if parts == [] {
    } else if |parts| == 1 {
      ThreeParts(parts[0], [close], x);
    } else {
      FourParts(parts[0], Commas(parts[1..]), [close], x);
    }
  }

  lemma {:induction false} ListsApart(a: seq<string>, b: seq<string>, close: char, x: string, y: string)
    requires AllApart(a, b) && Parts(a) && Parts(b) && close in {']', '}'}
    requires Commas(a) + [close] + x == Commas(b) + [close] + y
    ensures a == b && x == y
    decreases |a|, 1
  {
    CommasUnfold(a, close, x);
    CommasUnfold(b, close, y);
    FirstOfList(a, close, x);
    FirstOfList(b, close, y);
    if a == [] {
      assert ([close] + x)[1..] == x && ([close] + y)[1..] == y;
    } else {
      assert Apart(a[0], b[0]);
      assert a[0] + Rest(a, close, x) == b[0] + Rest(b, close, y);
      assert a[0] == b[0] && Rest(a, close, x) == Rest(b, close, y);
      RestsApart(a, b, close, x, y);
    }
  }

  lemma FirstOfList(a: seq<string>, close: char, x: string)
    requires Parts(a)
    ensures var t := Commas(a) + [close] + x;
            t != "" && (a == [] ==> t[0] == close) && (a != [] ==> t[0] !in {',', ']', '}'})
  {
    CommasUnfold(a, close, x);
    if a != [] { assert (a[0] + Rest(a, close, x))[0] == a[0][0]; }
  }

  lemma {:induction false} RestsApart(a: seq<string>, b: seq<string>, close: char, x: string, y: string)
    requires AllApart(a, b) && Parts(a) && Parts(b) && close in {']', '}'} && a != [] && b != [] && a[0] == b[0]
    requires Rest(a, close, x) == Rest(b, close, y)
    ensures a == b && x == y
    decreases |a|, 0
  {
    assert Rest(a, close, x)[0] == (if |a| == 1 then close else ',')
        && Rest(b, close, y)[0] == (if |b| == 1 then close else ',');
    if |a| == 1 {
      assert Rest(a, close, x)[1..] == x && Rest(b, close, y)[1..] == y;
    } else {
      assert Rest(a, close, x)[1..] == Commas(a[1..]) + [close] + x
          && Rest(b, close, y)[1..] == Commas(b[1..]) + [close] + y;
      assert AllApart(a[1..], b[1..]);
      ListsApart(a[1..], b[1..], close, x, y);
      assert a == [a[0]] + a[1..] && b == [b[0]] + b[1..];
    }
  }

  // ---------- values ----------

  lemma TextOfArray(less: (string, string) -> bool, items: seq<Json>)
    ensures Text(less, Arr(items)) == "[" + Commas(Texts(less, items)) + "]"
  {
    assert seq(|items|, i requires 0 <= i < |items| => Text(less, items[i])) == Texts(less, items);
  }

  /** The printed entries of an object, in key order. */
  function Lines(less: (string, string) -> bool, fields: seq<Field>): seq<string> {
    RenderAll(InKeyOrder(less, Entries(less, fields)))
  }

  lemma TextOfObject(less: (string, string) -> bool, fields: seq<Field>)
    ensures Text(less, Obj(fields)) == "{" + Commas(Lines(less, fields)) + "}"
  {
    assert seq(|fields|, i requires 0 <= i < |fields| => Entry(fields[i].key, Text(less, fields[i].value)))
        == Entries(less, fields);
  }

  /** The first character tells the kind of a value. */
  function Kind(v: Json): set<char> {
    match v
    case Null => {'n'}
    case Bool(b) => if b then {'t'} else {'f'}
    case Num(_) => {'-', '0', '1', '2', '3', '4', '5', '6', '7', '8', '9'}
    case Str(_) => {'"'}
    case Arr(_) => {'['}
    case Obj(_) => {'{'}
  }

  lemma FirstChar(less: (string, string) -> bool, v: Json)
    requires WellFormed(v)
    ensures Text(less, v) != "" && Text(less, v)[0] in Kind(v)
  {
  }

  lemma ItemsAreParts(less: (string, string) -> bool, items: seq<Json>)
    requires forall i :: 0 <= i < |items| ==> WellFormed(items[i])
    ensures Parts(Texts(less, items))
  {
    forall i | 0 <= i < |items| ensures Texts(less, items)[i] != "" && Texts(less, items)[i][0] !in {',', ']', '}'} {
      FirstChar(less, items[i]);
    }
  }

  lemma LinesAreParts(less: (string, string) -> bool, fields: seq<Field>)
    ensures Parts(Lines(less, fields))
  {
  }

  /** Every line is the rendering of a field. */
  lemma LineIsField(less: (string, string) -> bool, fields: seq<Field>, i: nat) returns (k: nat)
    requires i < |Lines(less, fields)|
    ensures k < |fields| && Lines(less, fields)[i] == Render(Entry(fields[k].key, Text(less, fields[k].value)))
    ensures InKeyOrder(less, Entries(less, fields))[i] == Entries(less, fields)[k]
  {
    var sorted, entries := InKeyOrder(less, Entries(less, fields)), Entries(less, fields);
    SortIsPermutation((a, b) => KeyLess(less, a, b), entries);
    SameMembers(sorted, entries);
    assert sorted[i] in entries;
    k :| 0 <= k < |entries| && entries[k] == sorted[i];
  }

  lemma RenderSplits(e: Entry, x: string)
    ensures Render(e) + x == Quote(e.key) + (":" + (e.text + x)) && (":" + (e.text + x))[1..] == e.text + x
  {
    assert Render(e) == Quote(e.key) + (":" + e.text);
    assert (":" + e.text) + x == ":" + (e.text + x);
    assert (Quote(e.key) + (":" + e.text)) + x == Quote(e.key) + ((":" + e.text) + x);
  }

  lemma RendersApart(e: Entry, f: Entry)
    requires Apart(e.text, f.text)
    ensures Apart(Render(e), Render(f))
  {
    forall x, y | Ended(x) && Ended(y) && Render(e) + x == Render(f) + y ensures Render(e) == Render(f) && x == y {
      RenderSplits(e, x);
      RenderSplits(f, y);
      QuoteIsPrefixCode(e.key, f.key, ":" + (e.text + x), ":" + (f.text + y));
      assert e.text + x == f.text + y;
    }
  }

  lemma RenderIsInjective(e: Entry, f: Entry)
    requires Render(e) == Render(f)
    ensures e == f
  {
    var restE, restF := ":" + e.text, ":" + f.text;
    assert Render(e) == Quote(e.key) + restE && Render(f) == Quote(f.key) + restF;
    QuoteIsPrefixCode(e.key, f.key, restE, restF);
    assert restE[1..] == e.text && restF[1..] == f.text;
  }

  /** Unique readability: the texts of two values are equal or neither continues into the other. */
  lemma {:induction false} ValuesApart(less: (string, string) -> bool, v: Json, w: Json)
    requires WellFormed(v) && WellFormed(w)
    ensures Apart(Text(less, v), Text(less, w))
    decreases v
  {
    match (v, w) {
      case (Num(s), Num(t)) => NumbersApart(s, t);
      case (Str(s), Str(t)) => QuotesApart(s, t);
      case (Arr(a), Arr(b)) =>
        forall i, j | 0 <= i < |a| && 0 <= j < |b| ensures Apart(Texts(less, a)[i], Texts(less, b)[j]) {
          ValuesApart(less, a[i], b[j]);
        }
        ArraysApart(less, a, b);
      case (Obj(a), Obj(b)) =>
        forall i, j | 0 <= i < |a| && 0 <= j < |b| ensures Apart(Text(less, a[i].value), Text(less, b[j].value)) {
          ValuesApart(less, a[i].value, b[j].value);
        }
        ObjectsApart(less, a, b);
      case _ =>
        FirstChar(less, v);
        FirstChar(less, w);
        KindsApart(less, v, w);
    }
  }

  lemma KindsApart(less: (string, string) -> bool, v: Json, w: Json)
    requires Text(less, v) != "" && Text(less, w) != "" && Text(less, v)[0] in Kind(v) && Text(less, w)[0] in Kind(w)
    requires v.Null? || v.Bool? || Kind(v) !! Kind(w)
    ensures Apart(Text(less, v), Text(less, w))
  {
    var s, t := Text(less, v), Text(less, w);
    forall x, y | Ended(x) && Ended(y) && s + x == t + y ensures s == t && x == y {
      assert (s + x)[0] == s[0] && (t + y)[0] == t[0];
      assert v == w;
      assert (s + x)[|s|..] == x && (t + y)[|t|..] == y;
    }
  }

  lemma ArraysApart(less: (string, string) -> bool, a: seq<Json>, b: seq<Json>)
    requires (forall i :: 0 <= i < |a| ==> WellFormed(a[i])) && (forall i :: 0 <= i < |b| ==> WellFormed(b[i]))
    requires forall i, j {:trigger a[i], b[j]} :: 0 <= i < |a| && 0 <= j < |b| ==>
             Apart(Texts(less, a)[i], Texts(less, b)[j])
    ensures Apart(Text(less, Arr(a)), Text(less, Arr(b)))
  {
    TextOfArray(less, a);
    TextOfArray(less, b);
    ItemsAreParts(less, a);
    ItemsAreParts(less, b);
    BracketsApart(Texts(less, a), Texts(less, b), '[', ']');
  }

  lemma BracketsApart(a: seq<string>, b: seq<string>, open: char, close: char)
    requires AllApart(a, b) && Parts(a) && Parts(b) && close in {']', '}'}
    ensures Apart([open] + Commas(a) + [close], [open] + Commas(b) + [close])
  {
    var s, t := [open] + Commas(a) + [close], [open] + Commas(b) + [close];
    forall x, y | Ended(x) && Ended(y) && s + x == t + y ensures s == t && x == y {
      assert (s + x)[1..] == Commas(a) + [close] + x && (t + y)[1..] == Commas(b) + [close] + y;
      ListsApart(a, b, close, x, y);
    }
  }

  lemma ObjectsApart(less: (string, string) -> bool, a: seq<Field>, b: seq<Field>)
    requires forall i, j {:trigger a[i], b[j]} :: 0 <= i < |a| && 0 <= j < |b| ==>
             Apart(Text(less, a[i].value), Text(less, b[j].value))
    ensures AllApart(Lines(less, a), Lines(less, b)) && Apart(Text(less, Obj(a)), Text(less, Obj(b)))
  {
    forall i, j | 0 <= i < |Lines(less, a)| && 0 <= j < |Lines(less, b)|
        ensures Apart(Lines(less, a)[i], Lines(less, b)[j]) {
      var k := LineIsField(less, a, i);
      var l := LineIsField(less, b, j);
      RendersApart(Entry(a[k].key, Text(less, a[k].value)), Entry(b[l].key, Text(less, b[l].value)));
    }
    TextOfObject(less, a);
    TextOfObject(less, b);
    LinesAreParts(less, a);
    LinesAreParts(less, b);
    BracketsApart(Lines(less, a), Lines(less, b), '{', '}');
  }

  // ---------- equality up to key order ----------

  /** The same value, whatever the order of the keys in its objects. */
  ghost predicate Same(v: Json, w: Json)
    decreases v
  {
    match (v, w)
    case (Arr(a), Arr(b)) => |a| == |b| && forall i :: 0 <= i < |a| ==> Same(a[i], b[i])
    case (Obj(a), Obj(b)) => |a| == |b| && forall i :: 0 <= i < |a| ==>
        exists j :: 0 <= j < |b| && a[i].key == b[j].key && Same(a[i].value, b[j].value)
    case _ => v == w
  }

  lemma KeyOrderIsStrict(less: (string, string) -> bool, fields: seq<Field>)
    requires StrictTotal(less) && DistinctKeys(fields)
    ensures var sorted := InKeyOrder(less, Entries(less, fields));
            && |sorted| == |fields| && (forall e :: e in sorted <==> e in Entries(less, fields))
            && forall i, j :: 0 <= i < j < |sorted| ==> less(sorted[i].key, sorted[j].key)
  {
    var entries := Entries(less, fields);
    var keyLess := (a, b) => KeyLess(less, a, b);
    var sorted := InKeyOrder(less, entries);
    StrictTotalIsWeak(less);
    assert StrictWeak(keyLess);
    SortIsPermutation(keyLess, entries);
    SortIsSorted(keyLess, entries);
    SameMembers(sorted, entries);
    assert NoDuplicates(entries);
    NoDuplicatesTransfers(entries, sorted);
    forall i, j | 0 <= i < j < |sorted| ensures less(sorted[i].key, sorted[j].key) {
      assert sorted[i] in entries && sorted[j] in entries && sorted[i] != sorted[j];
      assert !keyLess(sorted[j], sorted[i]);
    }
  }

  /** Some field of the list prints like this one. */
  ghost predicate PrintedIn(less: (string, string) -> bool, f: Field, list: seq<Field>) {
    exists j :: 0 <= j < |list| && f.key == list[j].key && Text(less, f.value) == Text(less, list[j].value)
  }

  /** Every field of `a` has its entry among those of `b`. */
  lemma EntriesWithin(less: (string, string) -> bool, a: seq<Field>, b: seq<Field>)
    requires forall i :: 0 <= i < |a| ==> PrintedIn(less, a[i], b)
    ensures forall e :: e in Entries(less, a) ==> e in Entries(less, b)
  {
    forall e | e in Entries(less, a) ensures e in Entries(less, b) {
      var i :| 0 <= i < |a| && Entries(less, a)[i] == e;
      var j :| 0 <= j < |b| && a[i].key == b[j].key && Text(less, a[i].value) == Text(less, b[j].value);
      assert Entries(less, b)[j] == e;
    }
  }

  lemma {:induction false} DistinctSize(s: seq<Entry>)
    requires NoDuplicates(s)
    ensures |set e | e in s| == |s|
  {
    if s == [] {
    } else {
      var front, last := s[..|s| - 1], s[|s| - 1];
      DistinctSize(front);
      assert s == front + [last];
      assert (set e | e in s) == (set e | e in front) + {last};
    }
  }

  lemma SameEntries(less: (string, string) -> bool, a: seq<Field>, b: seq<Field>)
    requires DistinctKeys(a) && DistinctKeys(b) && |a| == |b|
    requires forall e :: e in Entries(less, a) ==> e in Entries(less, b)
    ensures forall e :: e in Entries(less, b) ==> e in Entries(less, a)
  {
    var ea, eb := Entries(less, a), Entries(less, b);
    DistinctSize(ea);
    DistinctSize(eb);
    var sa, sb := set e | e in ea, set e | e in eb;
    SubsetIsSmaller(sa, sb);
    forall e | e in eb ensures e in ea {
      assert e in sb;
    }
  }

  /** Equal values have equal texts, whatever the order of their keys. */
  lemma {:induction false} TextIgnoresKeyOrder(less: (string, string) -> bool, v: Json, w: Json)
    requires StrictTotal(less) && WellFormed(v) && WellFormed(w) && Same(v, w)
    ensures Text(less, v) == Text(less, w)
    decreases v
  {
    match (v, w) {
      case (Arr(a), Arr(b)) =>
        forall i | 0 <= i < |a| ensures Texts(less, a)[i] == Texts(less, b)[i] {
          TextIgnoresKeyOrder(less, a[i], b[i]);
        }
        TextOfArray(less, a);
        TextOfArray(less, b);
        assert Texts(less, a) == Texts(less, b);
      case (Obj(a), Obj(b)) =>
        forall i | 0 <= i < |a| ensures PrintedIn(less, a[i], b) {
          var j :| 0 <= j < |b| && a[i].key == b[j].key && Same(a[i].value, b[j].value);
          TextIgnoresKeyOrder(less, a[i].value, b[j].value);
        }
        SameFieldsSameText(less, a, b);
      case _ =>
    }
  }

  lemma SameFieldsSameText(less: (string, string) -> bool, a: seq<Field>, b: seq<Field>)
    requires StrictTotal(less) && DistinctKeys(a) && DistinctKeys(b) && |a| == |b|
    requires forall i :: 0 <= i < |a| ==> PrintedIn(less, a[i], b)
    ensures Text(less, Obj(a)) == Text(less, Obj(b))
  {
    EntriesWithin(less, a, b);
    SameEntries(less, a, b);
    KeyOrderIsStrict(less, a);
    KeyOrderIsStrict(less, b);
    StrictlySortedIsUnique((e, f) => KeyLess(less, e, f), InKeyOrder(less, Entries(less, a)),
        InKeyOrder(less, Entries(less, b)));
    TextOfObject(less, a);
    TextOfObject(less, b);
  }

  /** Equal texts come from equal values: the canonical form, and so a digest of it, confuses nothing. */
  lemma {:induction false} TextDeterminesValue(less: (string, string) -> bool, v: Json, w: Json)
    requires StrictTotal(less) && WellFormed(v) && WellFormed(w) && Text(less, v) == Text(less, w)
    ensures Same(v, w)
    decreases v, 1
  {
    match (v, w) {
      case (Arr(a), Arr(b)) => ArrayTextDetermines(less, v, w);
      case (Obj(a), Obj(b)) => ObjectTextDetermines(less, v, w);
      case (Str(s), Str(t)) => StringTextDetermines(less, s, t);
      case _ => AtomsAgree(less, v, w);
    }
  }

  lemma {:induction false} ArrayTextDetermines(less: (string, string) -> bool, v: Json, w: Json)
    requires StrictTotal(less) && WellFormed(v) && WellFormed(w) && Text(less, v) == Text(less, w) && v.Arr? && w.Arr?
    ensures Same(v, w)
    decreases v, 0
  {
    var a, b := v.items, w.items;
    ArrayTextsAgree(less, a, b);
    forall i | 0 <= i < |a| ensures Same(a[i], b[i]) {
      assert Texts(less, a)[i] == Texts(less, b)[i];
      TextDeterminesValue(less, a[i], b[i]);
    }
  }

  lemma {:induction false} ObjectTextDetermines(less: (string, string) -> bool, v: Json, w: Json)
    requires StrictTotal(less) && WellFormed(v) && WellFormed(w) && Text(less, v) == Text(less, w) && v.Obj? && w.Obj?
    ensures Same(v, w)
    decreases v, 0
  {
    var a, b := v.fields, w.fields;
    ObjectTextsAgree(less, a, b);
    forall i | 0 <= i < |a| ensures exists j ::
        0 <= j < |b| && a[i].key == b[j].key && Same(a[i].value, b[j].value) {
      var j :| 0 <= j < |b| && a[i].key == b[j].key && Text(less, a[i].value) == Text(less, b[j].value);
      TextDeterminesValue(less, a[i].value, b[j].value);
    }
  }

  lemma StringTextDetermines(less: (string, string) -> bool, s: string, t: string)
    requires Text(less, Str(s)) == Text(less, Str(t))
    ensures s == t
  {
    assert Quote(s) + "" == Quote(s) && Quote(t) + "" == Quote(t);
    QuoteIsPrefixCode(s, t, "", "");
  }

  lemma AtomsAgree(less: (string, string) -> bool, v: Json, w: Json)
    requires WellFormed(v) && WellFormed(w) && Text(less, v) == Text(less, w)
    requires !(v.Arr? && w.Arr?) && !(v.Obj? && w.Obj?) && !(v.Str? && w.Str?)
    ensures v == w
  {
    FirstChar(less, v);
    FirstChar(less, w);
  }

  /** The canonical text is the same exactly for values that are equal up to key order. */
  lemma CanonicalIffSame(less: (string, string) -> bool, v: Json, w: Json)
    requires StrictTotal(less) && WellFormed(v) && WellFormed(w)
    ensures Text(less, v) == Text(less, w) <==> Same(v, w)
  {
    if Same(v, w) { TextIgnoresKeyOrder(less, v, w); }
    if Text(less, v) == Text(less, w) { TextDeterminesValue(less, v, w); }
  }

  lemma ArrayTextsAgree(less: (string, string) -> bool, a: seq<Json>, b: seq<Json>)
    requires WellFormed(Arr(a)) && WellFormed(Arr(b)) && Text(less, Arr(a)) == Text(less, Arr(b))
    ensures Texts(less, a) == Texts(less, b)
  {
    forall i, j | 0 <= i < |Texts(less, a)| && 0 <= j < |Texts(less, b)|
        ensures Apart(Texts(less, a)[i], Texts(less, b)[j]) {
      ValuesApart(less, a[i], b[j]);
    }
    ItemsAreParts(less, a);
    ItemsAreParts(less, b);
    TextOfArray(less, a);
    TextOfArray(less, b);
    InsideBrackets(Commas(Texts(less, a)), Commas(Texts(less, b)), '[', ']');
    ListsApart(Texts(less, a), Texts(less, b), ']', "", "");
  }

  lemma InsideBrackets(a: string, b: string, open: char, close: char)
    requires [open] + a + [close] == [open] + b + [close]
    ensures a + [close] + "" == b + [close] + ""
  {
    assert ([open] + a + [close])[1..] == a + [close] + "" && ([open] + b + [close])[1..] == b + [close] + "";
  }

  lemma ObjectTextsAgree(less: (string, string) -> bool, a: seq<Field>, b: seq<Field>)
    requires StrictTotal(less) && WellFormed(Obj(a)) && WellFormed(Obj(b)) && Text(less, Obj(a)) == Text(less, Obj(b))
    ensures |a| == |b|
    ensures forall i :: 0 <= i < |a| ==> PrintedIn(less, a[i], b)
  {
    forall i, j | 0 <= i < |a| && 0 <= j < |b| ensures Apart(Text(less, a[i].value), Text(less, b[j].value)) {
      ValuesApart(less, a[i].value, b[j].value);
    }
    ObjectsApart(less, a, b);
    LinesAreParts(less, a);
    LinesAreParts(less, b);
    TextOfObject(less, a);
    TextOfObject(less, b);
    InsideBrackets(Commas(Lines(less, a)), Commas(Lines(less, b)), '{', '}');
    ListsApart(Lines(less, a), Lines(less, b), '}', "", "");
    SameLinesSameEntries(less, a, b);
  }

  lemma SameLinesSameEntries(less: (string, string) -> bool, a: seq<Field>, b: seq<Field>)
    requires StrictTotal(less) && DistinctKeys(a) && DistinctKeys(b) && Lines(less, a) == Lines(less, b)
    ensures |a| == |b|
    ensures forall i :: 0 <= i < |a| ==> PrintedIn(less, a[i], b)
  {
    KeyOrderIsStrict(less, a);
    KeyOrderIsStrict(less, b);
    var sa, sb := InKeyOrder(less, Entries(less, a)), InKeyOrder(less, Entries(less, b));
    assert |Lines(less, a)| == |sa| && |Lines(less, b)| == |sb|;
    forall i | 0 <= i < |sa| ensures sa[i] == sb[i] {
      assert Lines(less, a)[i] == Render(sa[i]) && Lines(less, b)[i] == Render(sb[i]);
      RenderIsInjective(sa[i], sb[i]);
    }
    assert sa == sb;
    forall i | 0 <= i < |a| ensures PrintedIn(less, a[i], b) {
      assert Entries(less, a)[i] in Entries(less, a);
      assert Entries(less, a)[i] in Entries(less, b);
      var j :| 0 <= j < |b| && Entries(less, b)[j] == Entries(less, a)[i];
    }
  }
}
