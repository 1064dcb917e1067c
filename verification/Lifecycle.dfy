/** acquisition/processing-state.js: the lifecycle of one Companies House candidate. */
module Lifecycle {

  datatype State =
    Unseen | Claimed | Matched | Enriched | Persisted | Complete | NoMatch | Ambiguous | Discarded | Research | Failed

  /** The frozen table of legal next states. */
  function NextStates(s: State): set<State> {
    match s
    case Unseen => {Claimed}
    case Claimed => {Matched, NoMatch, Ambiguous, Discarded, Research, Failed}
    case Matched => {Enriched, Failed}
    case Enriched => {Persisted, Failed}
    case Persisted => {Complete}
    case Ambiguous => {Claimed}
    case Failed => {Claimed}
    case _ => {}
  }

  predicate CanTransition(a: State, b: State) {
    b in NextStates(a)
  }

  predicate IsTerminal(s: State) {
    NextStates(s) == {}
  }

  /** A history starts at unseen and follows legal edges only. */
  ghost predicate LegalHistory(h: seq<State>) {
    (h != [] ==> h[0] == Unseen) && forall k :: 0 < k < |h| ==> CanTransition(h[k - 1], h[k])
  }

  /** How often a history claims: the retry edges are the only way to process a candidate again. */
  function Claims(h: seq<State>): nat {
    if h == [] then 0 else Claims(h[..|h| - 1]) + if h[|h| - 1] == Claimed then 1 else 0
  }

  function Retries(h: seq<State>): nat {
    if h == [] then 0 else Retries(h[..|h| - 1]) + if h[|h| - 1] in {Failed, Ambiguous} then 1 else 0
  }

  /** A candidate is claimed once and once more after each failure and each ambiguity that is not its last
      event, and nothing follows a terminal state. */
  lemma {:induction false} ClaimsNeedRetries(h: seq<State>)
    requires LegalHistory(h) && h != []
    ensures Claims(h) == Retries(h) + if h[|h| - 1] in {Unseen, Failed, Ambiguous} then 0 else 1
    ensures forall k :: 0 <= k < |h| - 1 ==> !IsTerminal(h[k])
  {
    var front := h[..|h| - 1];
    if front != [] {
      ClaimsNeedRetries(front);
      assert CanTransition(h[|h| - 2], h[|h| - 1]);
      forall k | 0 <= k < |h| - 1 ensures !IsTerminal(h[k]) {
        assert CanTransition(h[k], h[k + 1]) by { assert CanTransition(h[k + 1 - 1], h[k + 1]); }
      }
    } else {
      assert h == [Unseen];
    }
  }
}
