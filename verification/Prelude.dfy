/** Small vocabulary shared by the models: optional values, text as lists of pieces, and what a filter keeps. */
module Prelude {
  datatype Option<+T> = None | Some(value: T)

  datatype Result<+T, +E> = Ok(value: T) | Err(error: E)

  /** The pieces of a text with `sep` written between neighbours. */
  function Join(pieces: seq<string>, sep: string): string {
    if |pieces| == 0 then ""
    else if |pieces| == 1 then pieces[0]
    else pieces[0] + sep + Join(pieces[1..], sep)
  }

  /** The maximal stretches of `s` free of `c`: JavaScript's `s.split(c)`. */
  function Split(s: string, c: char): (pieces: seq<string>)
    ensures |pieces| >= 1
  {
    if s == "" then [""]
    else if s[0] == c then [""] + Split(s[1..], c)
    else var rest := Split(s[1..], c); [[s[0]] + rest[0]] + rest[1..]
  }

  lemma {:induction false} JoinOfSplit(s: string, c: char)
    ensures Join(Split(s, c), [c]) == s
    ensures forall i :: 0 <= i < |Split(s, c)| ==> c !in Split(s, c)[i]
  {
    if s != "" {
      JoinOfSplit(s[1..], c);
      var rest := Split(s[1..], c);
      if s[0] == c {
        assert ([""] + rest)[1..] == rest;
        assert "" + [c] + Join(rest, [c]) == s;
      } else {
        var pieces := [[s[0]] + rest[0]] + rest[1..];
        assert pieces[1..] == rest[1..];
        assert Join(pieces, [c]) == [s[0]] + Join(rest, [c]);
      }
    }
  }

  function Concat<T>(parts: seq<seq<T>>): seq<T> {
    if parts == [] then [] else parts[0] + Concat(parts[1..])
  }

  /** `t` is what `s` has at the indices `at`, in the order of `s`. */
  ghost predicate Picks<T>(s: seq<T>, at: seq<nat>, t: seq<T>) {
    && |at| == |t|
    && (forall k :: 0 <= k < |at| ==> at[k] < |s| && t[k] == s[at[k]])
    && (forall j, k :: 0 <= j < k < |at| ==> at[j] < at[k])
  }

  /** One more element in front. */
  lemma PicksCons<T>(s: seq<T>, at: seq<nat>, t: seq<T>, x: T) returns (moved: seq<nat>)
    requires Picks(s, at, t)
    ensures Picks([x] + s, moved, t) && Picks([x] + s, [0] + moved, [x] + t)
    ensures 0 !in moved && 0 in [0] + moved
    ensures forall i :: 0 <= i < |s| ==> (i + 1 in moved <==> i in at) && (i + 1 in [0] + moved <==> i in at)
  {
    moved := seq(|at|, k requires 0 <= k < |at| => at[k] + 1);
    MovedMembers(at, moved);
  }

  lemma MovedMembers(at: seq<nat>, moved: seq<nat>)
    requires |moved| == |at| && forall k :: 0 <= k < |at| ==> moved[k] == at[k] + 1
    ensures forall i :: i + 1 in moved <==> i in at
  {
    forall i | i in at ensures i + 1 in moved {
      var k :| 0 <= k < |at| && at[k] == i;
      assert moved[k] == i + 1;
    }
  }

  /** `t` has exactly the elements of `s` that are to be kept, as often and in the order in which `s` has them. */
  ghost predicate Filters<T>(s: seq<T>, keep: T -> bool, t: seq<T>) {
    exists at :: Picks(s, at, t) && Keeps(s, keep, at)
  }

  ghost predicate Keeps<T>(s: seq<T>, keep: T -> bool, at: seq<nat>) {
    forall i {:trigger keep(s[i])} :: 0 <= i < |s| ==> (i in at <==> keep(s[i]))
  }

  lemma KeepsCons<T>(s: seq<T>, keep: T -> bool, at: seq<nat>, x: T, kept: seq<nat>)
    requires Keeps(s, keep, at)
    requires 0 in kept <==> keep(x)
    requires forall i :: 0 <= i < |s| ==> (i + 1 in kept <==> i in at)
    ensures Keeps([x] + s, keep, kept)
  {
    forall i | 0 <= i < |[x] + s| ensures i in kept <==> keep(([x] + s)[i]) {
      if i > 0 {
        assert keep(s[i - 1]) <==> (i - 1) + 1 in kept;
      }
    }
  }

  lemma FiltersNone<T>(keep: T -> bool)
    ensures Filters([], keep, [])
  {
    assert Picks<T>([], [], []) && Keeps([], keep, []);
  }

  lemma FiltersCons<T>(s: seq<T>, keep: T -> bool, t: seq<T>, x: T)
    requires Filters(s, keep, t)
    ensures Filters([x] + s, keep, if keep(x) then [x] + t else t)
  {
    var at :| Picks(s, at, t) && Keeps(s, keep, at);
    var moved := PicksCons(s, at, t, x);
    KeepsCons(s, keep, at, x, if keep(x) then [0] + moved else moved);
  }
}
