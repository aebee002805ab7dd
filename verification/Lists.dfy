/** Sequences of numbers as links spell them out. */
module Lists {
  import opened Wrappers

  ghost predicate Distinct(s: seq<nat>)
  {
    forall i, j :: 0 <= i < j < |s| ==> s[i] != s[j]
  }

  /** The link to element i, NULL past either end. */
  function At(s: seq<nat>, i: int): Option<nat>
  {
    if 0 <= i < |s| then Some(s[i]) else None
  }

  /** What the link of element i holds. */
  function NextIn(s: seq<nat>, i: int): Option<nat>
  {
    At(s, i + 1)
  }
}
