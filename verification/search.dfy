/** The two sequence scans the resolution pipeline is built from:
    first-match-wins search (the `for ...: if result: ...; break` loops and
    the row loop of the catalogue probe) and the "keep the present values in
    order" filter that builds a star's name candidates. */
module Search {
  import opened Optional

  /** Position and payload of the first element of `xs` on which `f`
      answers `Some`; `None` when `f` answers `None` everywhere. */
  function FirstSome<T, U>(xs: seq<T>, f: T -> Option<U>): (r: Option<(nat, U)>)
    ensures r.None? <==> forall i :: 0 <= i < |xs| ==> f(xs[i]).None?
    ensures r.Some? ==> r.value.0 < |xs| && f(xs[r.value.0]) == Some(r.value.1)
    ensures r.Some? ==> forall j :: 0 <= j < r.value.0 ==> f(xs[j]).None?
    decreases |xs|
  {
    if |xs| == 0 then None
    else match f(xs[0])
      case Some(u) => Some((0, u))
      case None =>
        match FirstSome(xs[1..], f)
        case None => None
        case Some(hit) => Some((hit.0 + 1, hit.1))
  }

  /** The payloads of the `Some` entries of `xs`, in their order. */
  function Somes<T>(xs: seq<Option<T>>): (r: seq<T>)
    ensures |r| <= |xs|
    ensures forall i :: 0 <= i < |r| ==> Some(r[i]) in xs
    ensures forall i :: 0 <= i < |xs| && xs[i].Some? ==> xs[i].value in r
    ensures r == [] <==> forall i :: 0 <= i < |xs| ==> xs[i].None?
    decreases |xs|
  {
    if |xs| == 0 then []
    else
      assert xs == [xs[0]] + xs[1..];
      (match xs[0] case Some(x) => [x] case None => []) + Somes(xs[1..])
  }

  /** Filtering distributes over concatenation: present values keep the
      relative order of the positions they came from. */
  lemma {:induction false} SomesAppend<T>(xs: seq<Option<T>>, ys: seq<Option<T>>)
    ensures Somes(xs + ys) == Somes(xs) + Somes(ys)
    decreases |xs|
  {
    if |xs| == 0 {
      assert xs + ys == ys;
    } else {
      assert (xs + ys)[1..] == xs[1..] + ys;
      SomesAppend(xs[1..], ys);
    }
  }

  /** Applies `f` to every element, in order, and gives up as a whole at
      the first element on which `f` fails. */
  function MapAll<T, U>(xs: seq<T>, f: T -> Option<U>): (r: Option<seq<U>>)
    ensures r.Some? <==> forall i :: 0 <= i < |xs| ==> f(xs[i]).Some?
    ensures r.Some? ==> |r.value| == |xs| && forall i :: 0 <= i < |xs| ==> f(xs[i]) == Some(r.value[i])
    decreases |xs|
  {
    if |xs| == 0 then Some([])
    else match f(xs[0])
      case None => None
      case Some(y) =>
        match MapAll(xs[1..], f)
        case None => None
        case Some(ys) =>
          assert forall i :: 1 <= i < |xs| ==> xs[i] == xs[1..][i - 1];
          Some([y] + ys)
  }
}
