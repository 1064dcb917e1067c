/** acquisition/processing-ledger.js and the registry file of acquisition/fca-adapters.js: an
    append-only log folded into an index, next to an append-only registry. */
module Ledgers {
  import opened Records
  import opened Lifecycle

  /** One whole durable append: a ledger line or a registry line. */
  datatype Action = Log(cn: string, state: State) | Reg(cn: string)

  // ---------- what a journal of appends says about one company ----------

  function Current(j: seq<Action>, cn: string): Option<State> {
    if j == [] then None
    else match j[|j| - 1]
         case Log(c, s) => if c == cn then Some(s) else Current(j[..|j| - 1], cn)
         case Reg(_) => Current(j[..|j| - 1], cn)
  }

  /** The ordered state events of a company. */
  function History(j: seq<Action>, cn: string): seq<State> {
    if j == [] then []
    else match j[|j| - 1]
         case Log(c, s) => History(j[..|j| - 1], cn) + (if c == cn then [s] else [])
         case Reg(_) => History(j[..|j| - 1], cn)
  }

  /** How many registry lines carry the company. */
  function Registered(j: seq<Action>, cn: string): nat {
    if j == [] then 0
    else Registered(j[..|j| - 1], cn) + if j[|j| - 1] == Reg(cn) then 1 else 0
  }

  /** The recorded companies in the order of their first event. */
  function Companies(j: seq<Action>): seq<string> {
    if j == [] then []
    else
      var front := Companies(j[..|j| - 1]);
      match j[|j| - 1]
      case Log(c, _) => if c in front then front else front + [c]
      case Reg(_) => front
  }

  lemma {:induction false} CurrentIsLastEvent(j: seq<Action>, cn: string)
    ensures Current(j, cn).None? <==> History(j, cn) == []
    ensures History(j, cn) != [] ==> Current(j, cn) == Some(History(j, cn)[|History(j, cn)| - 1])
    ensures cn in Companies(j) <==> Current(j, cn).Some?
  {
    if j == [] {
    } else {
      CurrentIsLastEvent(j[..|j| - 1], cn);
    }
  }

  lemma {:induction false} CompaniesAreDistinct(j: seq<Action>)
    ensures forall a, b :: 0 <= a < b < |Companies(j)| ==> Companies(j)[a] != Companies(j)[b]
  {
    if j == [] {
    } else {
      CompaniesAreDistinct(j[..|j| - 1]);
    }
  }

  lemma AppendLog(j: seq<Action>, c: string, s: State, cn: string)
    ensures Current(j + [Log(c, s)], cn) == if c == cn then Some(s) else Current(j, cn)
    ensures History(j + [Log(c, s)], cn) == History(j, cn) + if c == cn then [s] else []
    ensures Registered(j + [Log(c, s)], cn) == Registered(j, cn)
    ensures Companies(j + [Log(c, s)]) == if c in Companies(j) then Companies(j) else Companies(j) + [c]
  {
  }

  lemma AppendReg(j: seq<Action>, c: string, cn: string)
    ensures Current(j + [Reg(c)], cn) == Current(j, cn)
    ensures History(j + [Reg(c)], cn) == History(j, cn)
    ensures Registered(j + [Reg(c)], cn) == Registered(j, cn) + if c == cn then 1 else 0
    ensures Companies(j + [Reg(c)]) == Companies(j)
  {
  }

  // ---------- the two files ----------

  datatype Event = Event(cn: string, state: State)

  function LedgerLines(j: seq<Action>): seq<Event> {
    if j == [] then []
    else match j[|j| - 1]
         case Log(c, s) => LedgerLines(j[..|j| - 1]) + [Event(c, s)]
         case Reg(_) => LedgerLines(j[..|j| - 1])
  }

  function RegistryLines(j: seq<Action>): seq<string> {
    if j == [] then []
    else match j[|j| - 1]
         case Log(_, _) => RegistryLines(j[..|j| - 1])
         case Reg(c) => RegistryLines(j[..|j| - 1]) + [c]
  }

  /** A record of the in-memory index. */
  datatype Entry = Entry(state: State, events: seq<State>)

  function Apply(index: map<string, Entry>, e: Event): map<string, Entry> {
    index[e.cn := Entry(e.state, (if e.cn in index then index[e.cn].events else []) + [e.state])]
  }

  function Fold(lines: seq<Event>): map<string, Entry> {
    if lines == [] then map[] else Apply(Fold(lines[..|lines| - 1]), lines[|lines| - 1])
  }

  function Order(lines: seq<Event>): seq<string> {
    if lines == [] then []
    else
      var front, c := Order(lines[..|lines| - 1]), lines[|lines| - 1].cn;
      if c in front then front else front + [c]
  }

  /** The index holds, per company, its current state and its whole history. */
  lemma {:induction false} IndexOfJournal(j: seq<Action>, cn: string)
    ensures cn in Fold(LedgerLines(j)) <==> Current(j, cn).Some?
    ensures cn in Fold(LedgerLines(j)) ==> Fold(LedgerLines(j))[cn] == Entry(Current(j, cn).value, History(j, cn))
    ensures Order(LedgerLines(j)) == Companies(j)
  {
    if j == [] {
    } else {
      var front := j[..|j| - 1];
      IndexOfJournal(front, cn);
      match j[|j| - 1]
      case Log(c, s) =>
        IndexOfJournal(front, c);
        CurrentIsLastEvent(front, c);
        var lines := LedgerLines(front) + [Event(c, s)];
        assert lines[..|lines| - 1] == LedgerLines(front);
      case Reg(_) =>
    }
  }

  /** The two append-only files. `journal` is the order in which their lines were appended. */
  class Files {
    var ledger: seq<Event>
    var registry: seq<string>
    ghost var journal: seq<Action>

    ghost predicate Valid()
      reads this
    {
      ledger == LedgerLines(journal) && registry == RegistryLines(journal)
    }

    constructor ()
      ensures Valid() && journal == []
    {
      ledger, registry, journal := [], [], [];
    }

    method AppendLedger(cn: string, st: State)
      requires Valid()
      modifies this
      ensures Valid() && journal == old(journal) + [Log(cn, st)]
      ensures ledger == old(ledger) + [Event(cn, st)]
    {
      ledger := ledger + [Event(cn, st)];
      journal := journal + [Log(cn, st)];
    }

    method AppendRegistry(cn: string)
      requires Valid()
      modifies this
      ensures Valid() && journal == old(journal) + [Reg(cn)]
      ensures ledger == old(ledger)
    {
      registry := registry + [cn];
      journal := journal + [Reg(cn)];
    }
  }

  /** The open ledger: the file and the index folded from it. */
  class Ledger {
    const files: Files
    var index: map<string, Entry>
    var keys: seq<string>

    ghost predicate Valid()
      reads this, files
    {
      files.Valid() && index == Fold(files.ledger) && keys == Order(files.ledger)
    }

    /** `openLedger`: the index is rebuilt from the file, whatever was in memory before. */
    constructor (files: Files)
      requires files.Valid()
      ensures Valid() && this.files == files
    {
      this.files := files;
      index, keys := map[], [];
      new;
      for i := 0 to |files.ledger|
        invariant index == Fold(files.ledger[..i]) && keys == Order(files.ledger[..i])
      {
        var e := files.ledger[i];
        assert files.ledger[..i + 1][..i] == files.ledger[..i];
        if e.cn !in keys { keys := keys + [e.cn]; }
        index := Apply(index, e);
      }
      assert files.ledger[..|files.ledger|] == files.ledger;
    }

    method Append(cn: string, st: State)
      requires Valid()
      modifies this, files
      ensures Valid() && files.journal == old(files.journal) + [Log(cn, st)]
    {
      var e := Event(cn, st);
      files.AppendLedger(cn, st);
      assert files.ledger[..|files.ledger| - 1] == old(files.ledger);
      if cn !in keys { keys := keys + [cn]; }
      index := Apply(index, e);
    }

    /** Claims a company when the state model permits it; an absent company is created first. */
    method Claim(cn: string) returns (claimed: bool)
      requires Valid()
      modifies this, files
      ensures Valid() && claimed == Claimable(Current(old(files.journal), cn))
      ensures files.journal == old(files.journal)
              + if claimed then ClaimActions(Current(old(files.journal), cn), cn) else []
    {
      IndexOfJournal(files.journal, cn);
      var current := if cn in index then index[cn].state else Unseen;
      if !CanTransition(current, Claimed) {
        return false;
      }
      ghost var before := files.journal;
      if cn !in index { Append(cn, Unseen); }
      Append(cn, Claimed);
      assert files.journal == before + ClaimActions(Current(before, cn), cn);
      return true;
    }

    /** Moves a recorded company to a legal next state; anything else is refused and changes nothing. */
    method Update(cn: string, to: State) returns (ok: bool)
      requires Valid()
      modifies this, files
      ensures Valid()
      ensures ok <==> Current(old(files.journal), cn).Some? && CanTransition(Current(old(files.journal), cn).value, to)
      ensures files.journal == old(files.journal) + if ok then [Log(cn, to)] else []
    {
      IndexOfJournal(files.journal, cn);
      if cn !in index || !CanTransition(index[cn].state, to) {
        return false;
      }
      Append(cn, to);
      return true;
    }
  }

  predicate Claimable(current: Option<State>) {
    CanTransition(if current.Some? then current.value else Unseen, Claimed)
  }

  /** Only an absent, unseen, failed or ambiguous company can be claimed. */
  lemma ClaimableIs(current: Option<State>)
    ensures Claimable(current) <==>
            current == None || current == Some(Unseen) || current == Some(Failed) || current == Some(Ambiguous)
  {
    if current.Some? {
      match current.value {
        case _ =>
      }
    }
  }

  function ClaimActions(current: Option<State>, cn: string): seq<Action> {
    (if current.None? then [Log(cn, Unseen)] else []) + [Log(cn, Claimed)]
  }
}
