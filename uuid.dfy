/** The id normaliser `toUuid` of the exporter client: it drops every dash of a
    page id and regroups what is left as 8-4-4-4-rest, the grouping of the
    UUID string form (section 3 of RFC 4122). Nothing is validated. */
module Uuid {

  /** `id.replace(/-/g, '')`. */
  function StripDashes(s: string): (r: string)
    ensures '-' !in r
    ensures |r| <= |s|
  {
    if s == [] then []
    else if s[0] == '-' then StripDashes(s[1..])
    else [s[0]] + StripDashes(s[1..])
  }

  /** `s.slice(i, j)` for 0 <= i <= j: both bounds are clamped to the length,
      so a range past the end is cut short or empty instead of failing. */
  function Slice(s: string, i: nat, j: nat): (r: string)
    requires i <= j
    ensures |r| <= j - i
    ensures j <= |s| ==> r == s[i..j]
    ensures i <= |s| < j ==> r == s[i..]
    ensures |s| <= i ==> r == []
  {
    var hi := if j < |s| then j else |s|;
    var lo := if i < hi then i else hi;
    s[lo..hi]
  }

  /** `s.slice(i)`: from the clamped index to the end. */
  function SliceFrom(s: string, i: nat): (r: string)
    ensures i <= |s| ==> r == s[i..]
    ensures |s| <= i ==> r == []
  {
    if i < |s| then s[i..] else []
  }

  /** `x + '-' + y`, the joint of two neighbouring groups. */
  function Dashed(x: string, y: string): string {
    x + "-" + y
  }

  /** `toUuid`: the dash-free content cut after its 8th, 12th, 16th and 20th
      characters, the five pieces joined by dashes. */
  function ToUuid(id: string): (r: string)
    ensures |r| == |StripDashes(id)| + 4
  {
    var u := StripDashes(id);
    SlicesPartition(u);
    Dashed(Slice(u, 0, 8), Dashed(Slice(u, 8, 12), Dashed(Slice(u, 12, 16),
      Dashed(Slice(u, 16, 20), SliceFrom(u, 20)))))
  }

  /** The five clamped slices cover the string exactly, in order. */
  lemma SlicesPartition(u: string)
    ensures Slice(u, 0, 8) + Slice(u, 8, 12) + Slice(u, 12, 16) + Slice(u, 16, 20)
      + SliceFrom(u, 20) == u
  {
  }

  /** Removing dashes distributes over concatenation. */
  lemma {:induction false} StripDashesAppend(a: string, b: string)
    ensures StripDashes(a + b) == StripDashes(a) + StripDashes(b)
  {
    if a == [] {
      assert a + b == b;
    } else {
      assert (a + b)[1..] == a[1..] + b;
      StripDashesAppend(a[1..], b);
    }
  }

  /** A string without dashes is left as it is. */
  lemma {:induction false} StripDashesOfDashFree(s: string)
    requires '-' !in s
    ensures StripDashes(s) == s
  {
    if s != [] {
      assert s[0] in s;
      assert forall k :: 0 <= k < |s[1..]| ==> s[1..][k] == s[k + 1];
      StripDashesOfDashFree(s[1..]);
      assert s == [s[0]] + s[1..];
    }
  }

  /** A slice of a dash-free string is dash-free. */
  lemma SliceDashFree(u: string, i: nat, j: nat)
    requires '-' !in u && i <= j
    ensures '-' !in Slice(u, i, j) && '-' !in SliceFrom(u, i)
  {
  }

  /** Removing the dashes of a joint keeps the dash-free left group intact. */
  lemma StripDashesOfDashed(x: string, y: string)
    requires '-' !in x
    ensures StripDashes(Dashed(x, y)) == x + StripDashes(y)
  {
    assert Dashed(x, y) == x + ("-" + y);
    StripDashesAppend(x, "-" + y);
    StripDashesOfDashFree(x);
    assert ("-" + y)[1..] == y;
  }

  /** Removing the dashes of five dash-free groups joined by dashes gives
      the groups run together. */
  lemma StripDashesOfGroups(a: string, b: string, c: string, d: string, e: string)
    requires '-' !in a && '-' !in b && '-' !in c && '-' !in d && '-' !in e
    ensures StripDashes(Dashed(a, Dashed(b, Dashed(c, Dashed(d, e))))) == a + b + c + d + e
  {
    StripDashesOfDashFree(e);
    StripDashesOfDashed(d, e);
    StripDashesOfDashed(c, Dashed(d, e));
    StripDashesOfDashed(b, Dashed(c, Dashed(d, e)));
    StripDashesOfDashed(a, Dashed(b, Dashed(c, Dashed(d, e))));
    assert a + (b + (c + (d + e))) == a + b + c + d + e;
  }

  /** Dropping the dashes of a normalised id gives back the dash-free content
      of the original id: the normaliser only moves dashes around. */
  lemma StripDashesOfToUuid(id: string)
    ensures StripDashes(ToUuid(id)) == StripDashes(id)
  {
    var u := StripDashes(id);
    SliceDashFree(u, 0, 8);
    SliceDashFree(u, 8, 12);
    SliceDashFree(u, 12, 16);
    SliceDashFree(u, 16, 20);
    SliceDashFree(u, 20, 20);
    StripDashesOfGroups(Slice(u, 0, 8), Slice(u, 8, 12), Slice(u, 12, 16), Slice(u, 16, 20), SliceFrom(u, 20));
    SlicesPartition(u);
  }

  /** The normaliser depends only on the dash-free content, so normalising a
      normalised id changes nothing. */
  lemma ToUuidIdempotent(id: string)
    ensures ToUuid(ToUuid(id)) == ToUuid(id)
  {
    StripDashesOfToUuid(id);
  }

  /** With at least 20 characters left after removing dashes, the dashes go
      after the 8th, 12th, 16th and 20th of them, at 8, 13, 18 and 23, and
      the content fills the rest in order; everything after the 20th lands
      in the last group. With 32 characters this is the canonical
      36-character UUID form. */
  lemma ToUuidGroups(id: string)
    requires |StripDashes(id)| >= 20
    ensures var r := ToUuid(id);
      && |r| == |StripDashes(id)| + 4
      && r[8] == '-' && r[13] == '-' && r[18] == '-' && r[23] == '-'
      && r[..8] == StripDashes(id)[..8]
      && r[9..13] == StripDashes(id)[8..12]
      && r[14..18] == StripDashes(id)[12..16]
      && r[19..23] == StripDashes(id)[16..20]
      && r[24..] == StripDashes(id)[20..]
  {
  }

  /** With fewer than 20 characters left the last group is empty, so the
      result ends with a dash; with at most 8 the content comes first and the
      four dashes trail it. */
  lemma ToUuidShort(id: string)
    requires |StripDashes(id)| < 20
    ensures ToUuid(id)[|ToUuid(id)| - 1] == '-'
    ensures |StripDashes(id)| <= 8 ==> ToUuid(id) == StripDashes(id) + "----"
  {
  }
}
