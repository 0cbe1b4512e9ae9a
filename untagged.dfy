/** The trial semantics of an untagged enum decoder: the candidates are tried in
    declaration order, the first that accepts the input wins, and the decode
    fails, with no detail about which candidate came closest, only when every
    candidate rejects the input. */
module Untagged {
  import opened Wrappers

  /** Ordered first-success over a list of candidate decoders. */
  function FirstMatch<W, T>(candidates: seq<W -> Option<T>>, w: W): Option<T>
    decreases |candidates|
  {
    if candidates == [] then None
    else
      match candidates[0](w)
      case Some(v) => Some(v)
      case None => FirstMatch(candidates[1..], w)
  }

  /** The winner is the earliest accepting candidate. */
  ghost predicate WinsAt<W, T>(candidates: seq<W -> Option<T>>, w: W, i: int, v: T)
  {
    && 0 <= i < |candidates|
    && candidates[i](w) == Some(v)
    && forall j :: 0 <= j < i ==> candidates[j](w).None?
  }

  /** FirstMatch fails exactly when every candidate rejects the input, and when
      it succeeds its value is that of the earliest accepting candidate. */
  lemma {:induction false} FirstMatchSpec<W, T>(candidates: seq<W -> Option<T>>, w: W)
    ensures FirstMatch(candidates, w).None? <==>
              forall i :: 0 <= i < |candidates| ==> candidates[i](w).None?
    ensures FirstMatch(candidates, w).Some? ==>
              exists i :: WinsAt(candidates, w, i, FirstMatch(candidates, w).value)
    decreases |candidates|
  {
    if candidates != [] {
      match candidates[0](w)
      case Some(v) =>
        assert WinsAt(candidates, w, 0, v);
      case None =>
        var rest := candidates[1..];
        FirstMatchSpec(rest, w);
        forall i | 0 <= i < |rest|
          ensures rest[i](w) == candidates[i + 1](w)
        {
        }
        if FirstMatch(rest, w).Some? {
          var i :| WinsAt(rest, w, i, FirstMatch(rest, w).value);
          assert WinsAt(candidates, w, i + 1, FirstMatch(rest, w).value);
        }
    }
  }
}
