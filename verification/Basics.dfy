/** Small vocabulary shared by the models: optional values, bytes, decimal digits
    and the drop-oldest discipline that three of the queues share. */
module Basics {

  datatype Option<+T> = None | Some(value: T)

  /** An octet as the decoders see it. */
  type byte = x: int | 0 <= x < 256

  /** Concatenation of all parts, in order. */
  function Flatten<T>(parts: seq<seq<T>>): (r: seq<T>) {
    if parts == [] then [] else parts[0] + Flatten(parts[1..])
  }

  lemma {:induction false} FlattenAppend<T>(a: seq<seq<T>>, b: seq<seq<T>>)
    ensures Flatten(a + b) == Flatten(a) + Flatten(b)
  {
    if a == [] {
      assert a + b == b;
    } else {
      assert (a + b)[1..] == a[1..] + b;
      FlattenAppend(a[1..], b);
    }
  }

  lemma FlattenSnoc<T>(a: seq<seq<T>>, x: seq<T>)
    ensures Flatten(a + [x]) == Flatten(a) + x
  {
    FlattenAppend(a, [x]);
    assert Flatten([x]) == x + Flatten<T>([]);
  }

  lemma PrefixSlice<T>(p: seq<T>, s: seq<T>, i: nat, j: nat)
    requires p <= s && i <= j <= |p|
    ensures s[i..j] == p[i..j]
  {
  }

  lemma TakeNext<T>(s: seq<T>, k: nat)
    requires k < |s|
    ensures s[..k] + [s[k]] == s[..k + 1]
    ensures k == |s| - 1 ==> s[..k + 1] == s
  {
  }

  /** The items whose mark is set, in order; marks cover a prefix of the items. */
  function Pick<T>(items: seq<T>, marks: seq<bool>): seq<T>
    requires |marks| <= |items|
  {
    if marks == [] then []
    else
      var n := |marks| - 1;
      Pick(items, marks[..n]) + (if marks[n] then [items[n]] else [])
  }

  lemma PickSnoc<T>(items: seq<T>, marks: seq<bool>, mark: bool)
    requires |marks| < |items|
    ensures Pick(items, marks + [mark]) == Pick(items, marks) + (if mark then [items[|marks|]] else [])
  {
    assert (marks + [mark])[..|marks|] == marks;
  }

  lemma {:induction false} PickFrame<T>(items: seq<T>, more: seq<T>, marks: seq<bool>)
    requires |marks| <= |items|
    ensures Pick(items + more, marks) == Pick(items, marks)
    decreases marks
  {
    if marks != [] {
      PickFrame(items, more, marks[..|marks| - 1]);
    }
  }
}
