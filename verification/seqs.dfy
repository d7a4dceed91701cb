/** Order-preserving filtering and mapping of sequences, the shape shared by the list loop
    of preprocess_text and the boolean row mask of load_data. */
module Seqs {

  /** The elements of `s` that satisfy `p`, in their original order. */
  function Filter<T>(p: T -> bool, s: seq<T>): (r: seq<T>)
    ensures |r| <= |s|
  {
    if s == [] then []
    else Filter(p, s[..|s| - 1]) + (if p(s[|s| - 1]) then [s[|s| - 1]] else [])
  }

  /** The positions in `s` of the elements that satisfy `p`, ascending. */
  function Positions<T>(p: T -> bool, s: seq<T>): seq<nat>
  {
    if s == [] then []
    else Positions(p, s[..|s| - 1]) + (if p(s[|s| - 1]) then [|s| - 1] else [])
  }

  /** `f` applied to every element, in order. */
  function Map<T, U>(f: T -> U, s: seq<T>): (r: seq<U>)
    ensures |r| == |s|
    ensures forall i :: 0 <= i < |s| ==> r[i] == f(s[i])
  {
    seq(|s|, i requires 0 <= i < |s| => f(s[i]))
  }

  predicate StrictlyIncreasing(s: seq<nat>)
  {
    forall j, k :: 0 <= j < k < |s| ==> s[j] < s[k]
  }

  lemma FilterAppend<T>(p: T -> bool, s: seq<T>, x: T)
    ensures Filter(p, s + [x]) == Filter(p, s) + (if p(x) then [x] else [])
  {
    assert (s + [x])[..|s|] == s;
  }

  lemma MapAppend<T, U>(f: T -> U, s: seq<T>, x: T)
    ensures Map(f, s + [x]) == Map(f, s) + [f(x)]
  {
  }

  /** Filtering selects exactly the satisfying elements, each once, in their original order:
      the j-th survivor is the element at the j-th satisfying position, and every satisfying
      position is among the selected ones. */
  lemma FilterSelects<T>(p: T -> bool, s: seq<T>)
    ensures |Positions(p, s)| == |Filter(p, s)|
    ensures StrictlyIncreasing(Positions(p, s))
    ensures forall j :: 0 <= j < |Positions(p, s)| ==>
              Positions(p, s)[j] < |s| && Filter(p, s)[j] == s[Positions(p, s)[j]]
    ensures forall j :: 0 <= j < |Filter(p, s)| ==> p(Filter(p, s)[j])
    ensures forall i :: 0 <= i < |s| && p(s[i]) ==> i in Positions(p, s)
  {
    PositionsSelect(p, s);
    PositionsCover(p, s);
  }

  lemma {:induction false} PositionsSelect<T>(p: T -> bool, s: seq<T>)
    ensures |Positions(p, s)| == |Filter(p, s)|
    ensures forall j :: 0 <= j < |Positions(p, s)| ==> Positions(p, s)[j] < |s|
    ensures StrictlyIncreasing(Positions(p, s))
    ensures forall j :: 0 <= j < |Positions(p, s)| ==> Filter(p, s)[j] == s[Positions(p, s)[j]]
    ensures forall j :: 0 <= j < |Filter(p, s)| ==> p(Filter(p, s)[j])
  {
    if s != [] {
      var init, last := s[..|s| - 1], s[|s| - 1];
      PositionsSelect(p, init);
      var ps0, r0 := Positions(p, init), Filter(p, init);
      var ps, r := Positions(p, s), Filter(p, s);
      assert ps == ps0 + (if p(last) then [|s| - 1] else []);
      assert r == r0 + (if p(last) then [last] else []);
      forall j | 0 <= j < |ps0| ensures r[j] == s[ps[j]] {
        assert ps[j] == ps0[j] && r[j] == r0[j] && init[ps0[j]] == s[ps0[j]];
      }
    }
  }

  lemma {:induction false} PositionsCover<T>(p: T -> bool, s: seq<T>)
    ensures forall i :: 0 <= i < |s| && p(s[i]) ==> i in Positions(p, s)
  {
    if s != [] {
      var init := s[..|s| - 1];
      PositionsCover(p, init);
      var ps0, ps := Positions(p, init), Positions(p, s);
      assert ps == ps0 + (if p(s[|s| - 1]) then [|s| - 1] else []);
      forall i | 0 <= i < |s| && p(s[i]) ensures i in ps {
        if i < |init| {
          assert init[i] == s[i];
          assert i in ps0;
        } else {
          assert ps[|ps| - 1] == i;
        }
      }
    }
  }

  /** When no element satisfies `p`, nothing is kept. */
  lemma {:induction false} FilterKeepsNone<T>(p: T -> bool, s: seq<T>)
    requires forall i :: 0 <= i < |s| ==> !p(s[i])
    ensures Filter(p, s) == []
  {
    if s != [] {
      var init := s[..|s| - 1];
      assert forall i :: 0 <= i < |init| ==> !p(init[i]) by {
        forall i | 0 <= i < |init| ensures !p(init[i]) { assert init[i] == s[i]; }
      }
      FilterKeepsNone(p, init);
    }
  }
}
