/** Data frames as sequences of row records, and the two pandas idioms the pipeline is
    built from: `sort_values(["hospital_id", "snapshot_time"])` and
    `groupby("hospital_id")[column].shift(k)`. */
module Frames {
  import opened Wrappers

  /** The sort key of a row: hospital first, then time. */
  datatype FrameKey = FrameKey(hospital: int, time: int)

  predicate KeyLe(a: FrameKey, b: FrameKey) {
    a.hospital < b.hospital || (a.hospital == b.hospital && a.time <= b.time)
  }

  ghost predicate SortedBy<T>(s: seq<T>, key: T -> FrameKey) {
    forall i, j :: 0 <= i < j < |s| ==> KeyLe(key(s[i]), key(s[j]))
  }

  /** Places `x` before the first element whose key is not smaller. */
  function Insert<T>(x: T, s: seq<T>, key: T -> FrameKey): seq<T>
  {
    if s == [] || KeyLe(key(x), key(s[0])) then [x] + s
    else [s[0]] + Insert(x, s[1..], key)
  }

  lemma {:induction false} InsertContents<T>(x: T, s: seq<T>, key: T -> FrameKey)
    ensures |Insert(x, s, key)| == |s| + 1
    ensures multiset(Insert(x, s, key)) == multiset(s) + multiset{x}
  {
    if s != [] && !KeyLe(key(x), key(s[0])) {
      InsertContents(x, s[1..], key);
      assert s == [s[0]] + s[1..];
    }
  }

  lemma {:induction false} InsertSorted<T>(x: T, s: seq<T>, key: T -> FrameKey)
    requires SortedBy(s, key)
    ensures SortedBy(Insert(x, s, key), key)
  {
    if s != [] && !KeyLe(key(x), key(s[0])) {
      var t := Insert(x, s[1..], key);
      InsertSorted(x, s[1..], key);
      InsertContents(x, s[1..], key);
      assert s == [s[0]] + s[1..];
      forall j | 0 <= j < |t| ensures KeyLe(key(s[0]), key(t[j])) {
        assert t[j] in multiset(t);
        assert t[j] == x || t[j] in multiset(s[1..]);
      }
    }
  }

  /** A stable sort (pandas sorts on several columns with a stable lexicographic sort). */
  function SortBy<T>(s: seq<T>, key: T -> FrameKey): (r: seq<T>)
    ensures |r| == |s|
    ensures multiset(r) == multiset(s)
  {
    if s == [] then []
    else
      var rest := SortBy(s[1..], key);
      InsertContents(s[0], rest, key);
      assert s == [s[0]] + s[1..];
      Insert(s[0], rest, key)
  }

  /** The sorted frame is in key order. */
  lemma {:induction false} SortBySorted<T>(s: seq<T>, key: T -> FrameKey)
    ensures SortedBy(SortBy(s, key), key)
  {
    if s != [] {
      SortBySorted(s[1..], key);
      InsertSorted(s[0], SortBy(s[1..], key), key);
    }
  }

  /** Sorting a frame that is already sorted leaves it as it is. */
  lemma {:induction false} SortSorted<T>(s: seq<T>, key: T -> FrameKey)
    requires SortedBy(s, key)
    ensures SortBy(s, key) == s
  {
    if s != [] {
      SortSorted(s[1..], key);
      assert s == [s[0]] + s[1..];
    }
  }

  // ----- Groups: the rows of one hospital, in frame order -----

  /** `df[df["hospital_id"] == h]`. */
  function Group<T>(s: seq<T>, key: T -> FrameKey, h: int): (g: seq<T>)
    ensures |g| <= |s|
    ensures forall x :: x in g ==> x in s && key(x).hospital == h
  {
    if s == [] then []
    else (if key(s[0]).hospital == h then [s[0]] else []) + Group(s[1..], key, h)
  }

  /** Every row of hospital `h` is in its group. */
  lemma {:induction false} GroupKeeps<T>(s: seq<T>, key: T -> FrameKey, h: int, x: T)
    requires x in s && key(x).hospital == h
    ensures x in Group(s, key, h)
  {
    if s[0] != x {
      GroupKeeps(s[1..], key, h, x);
    }
  }

  lemma {:induction false} GroupAppend<T>(a: seq<T>, b: seq<T>, key: T -> FrameKey, h: int)
    ensures Group(a + b, key, h) == Group(a, key, h) + Group(b, key, h)
  {
    if a == [] {
      assert a + b == b;
    } else {
      var head := if key(a[0]).hospital == h then [a[0]] else [];
      assert (a + b)[0] == a[0];
      assert (a + b)[1..] == a[1..] + b;
      calc {
        Group(a + b, key, h);
        head + Group(a[1..] + b, key, h);
        { GroupAppend(a[1..], b, key, h); }
        head + (Group(a[1..], key, h) + Group(b, key, h));
        (head + Group(a[1..], key, h)) + Group(b, key, h);
      }
    }
  }

  /** The position of row `i` inside its hospital's group. */
  function GroupPos<T>(s: seq<T>, key: T -> FrameKey, i: nat): nat
    requires i < |s|
  {
    |Group(s[..i], key, key(s[i]).hospital)|
  }

  /** Row `i` stands at position `GroupPos(s, key, i)` of its group. */
  lemma GroupAt<T>(s: seq<T>, key: T -> FrameKey, i: nat)
    requires i < |s|
    ensures GroupPos(s, key, i) < |Group(s, key, key(s[i]).hospital)|
    ensures Group(s, key, key(s[i]).hospital)[GroupPos(s, key, i)] == s[i]
  {
    var h := key(s[i]).hospital;
    assert s == s[..i] + s[i..];
    GroupAppend(s[..i], s[i..], key, h);
    assert s[i..] == [s[i]] + s[i + 1..];
  }

  /** Every position of a group is some row's position. */
  lemma {:induction false} GroupOnto<T>(s: seq<T>, key: T -> FrameKey, h: int, j: nat)
    requires j < |Group(s, key, h)|
    ensures exists i :: 0 <= i < |s| && key(s[i]).hospital == h && GroupPos(s, key, i) == j
  {
    if key(s[0]).hospital == h && j == 0 {
      assert GroupPos(s, key, 0) == 0;
    } else {
      var j' := if key(s[0]).hospital == h then j - 1 else j;
      GroupOnto(s[1..], key, h, j');
      var i' :| 0 <= i' < |s[1..]| && key(s[1..][i']).hospital == h && GroupPos(s[1..], key, i') == j';
      GroupPosTail(s, key, i');
      assert key(s[i' + 1]).hospital == h && GroupPos(s, key, i' + 1) == j;
    }
  }

  /** A row's position counts the head row when it shares the row's hospital. */
  lemma GroupPosTail<T>(s: seq<T>, key: T -> FrameKey, i: nat)
    requires i + 1 < |s|
    ensures s[i + 1] == s[1..][i]
    ensures GroupPos(s, key, i + 1)
            == (if key(s[0]).hospital == key(s[i + 1]).hospital then 1 else 0) + GroupPos(s[1..], key, i)
  {
    var h := key(s[i + 1]).hospital;
    assert s[..i + 1] == [s[0]] + s[1..][..i];
    GroupAppend([s[0]], s[1..][..i], key, h);
  }

  /** Rows of the same group have distinct positions, in frame order. */
  lemma GroupPosIncreasing<T>(s: seq<T>, key: T -> FrameKey, i: nat, i': nat)
    requires i < i' < |s|
    requires key(s[i]).hospital == key(s[i']).hospital
    ensures GroupPos(s, key, i) < GroupPos(s, key, i')
  {
    var h := key(s[i]).hospital;
    assert s[..i'] == s[..i] + s[i..i'];
    GroupAppend(s[..i], s[i..i'], key, h);
    assert s[i..i'] == [s[i]] + s[i + 1..i'];
  }

  /** A frame built row by row from another, keeping each row's hospital, has groups
      of the same size whose rows are built from the other's in the same order. */
  lemma {:induction false} GroupMapped<T, U>(s: seq<T>, t: seq<U>, ks: T -> FrameKey, kt: U -> FrameKey,
                                            proj: U -> T, h: int)
    requires |t| == |s|
    requires forall i :: 0 <= i < |t| ==> proj(t[i]) == s[i]
    requires forall u :: kt(u).hospital == ks(proj(u)).hospital
    ensures |Group(t, kt, h)| == |Group(s, ks, h)|
    ensures forall j :: 0 <= j < |Group(t, kt, h)| ==> proj(Group(t, kt, h)[j]) == Group(s, ks, h)[j]
  {
    if t != [] {
      assert proj(t[0]) == s[0];
      assert forall i :: 0 <= i < |t[1..]| ==> proj(t[1..][i]) == s[1..][i] by {
        forall i | 0 <= i < |t[1..]| ensures proj(t[1..][i]) == s[1..][i] {
          assert t[1..][i] == t[i + 1];
        }
      }
      GroupMapped(s[1..], t[1..], ks, kt, proj, h);
      var gt, gs := Group(t[1..], kt, h), Group(s[1..], ks, h);
      if kt(t[0]).hospital == h {
        assert Group(t, kt, h) == [t[0]] + gt;
        assert Group(s, ks, h) == [s[0]] + gs;
      } else {
        assert Group(t, kt, h) == gt;
        assert Group(s, ks, h) == gs;
      }
    }
  }

  /** A row of a mapped frame stands at the same group position as the row it maps to. */
  lemma GroupMappedPos<T, U>(s: seq<T>, t: seq<U>, ks: T -> FrameKey, kt: U -> FrameKey,
                             proj: U -> T, i: nat)
    requires |t| == |s| && i < |t|
    requires forall i :: 0 <= i < |t| ==> proj(t[i]) == s[i]
    requires forall u :: kt(u).hospital == ks(proj(u)).hospital
    ensures GroupPos(t, kt, i) == GroupPos(s, ks, i)
  {
    assert proj(t[i]) == s[i];
    GroupMapped(s[..i], t[..i], ks, kt, proj, kt(t[i]).hospital);
  }

  /** pandas `groupby(hospital)[val].shift(k)` at row `i`: the value `k` places earlier
      (later, for negative `k`) in the row's own group, absent past either end. */
  function GroupShift<T>(s: seq<T>, key: T -> FrameKey, val: T -> real, k: int, i: nat): Option<real>
    requires i < |s|
  {
    var g := Group(s, key, key(s[i]).hospital);
    var p := GroupPos(s, key, i) - k;
    if 0 <= p < |g| then Some(val(g[p])) else None
  }

  /** The first `n` entries of the shifted column. */
  function GroupShiftPrefix<T>(s: seq<T>, key: T -> FrameKey, val: T -> real, k: int, n: nat): (c: seq<Option<real>>)
    requires n <= |s|
    ensures |c| == n
  {
    if n == 0 then [] else GroupShiftPrefix(s, key, val, k, n - 1) + [GroupShift(s, key, val, k, n - 1)]
  }

  /** pandas `df.groupby(hospital)[val].shift(k)`: the whole shifted column. */
  function GroupShiftColumn<T>(s: seq<T>, key: T -> FrameKey, val: T -> real, k: int): (c: seq<Option<real>>)
    ensures |c| == |s|
  {
    GroupShiftPrefix(s, key, val, k, |s|)
  }

  lemma {:induction false} GroupShiftPrefixAt<T>(s: seq<T>, key: T -> FrameKey, val: T -> real, k: int, n: nat, i: nat)
    requires i < n <= |s|
    ensures GroupShiftPrefix(s, key, val, k, n)[i] == GroupShift(s, key, val, k, i)
  {
    if i < n - 1 {
      GroupShiftPrefixAt(s, key, val, k, n - 1, i);
    }
  }

  /** Entry `i` of the column is the shift at row `i`. */
  lemma GroupShiftColumnAt<T>(s: seq<T>, key: T -> FrameKey, val: T -> real, k: int, i: nat)
    requires i < |s|
    ensures GroupShiftColumn(s, key, val, k)[i] == GroupShift(s, key, val, k, i)
  {
    GroupShiftPrefixAt(s, key, val, k, |s|, i);
  }

  /** Read from the group's side: the shifted value at the group's `j`-th row is the value
      of the group's `(j - k)`-th row; it never comes from another hospital. */
  lemma GroupShiftInGroup<T>(s: seq<T>, key: T -> FrameKey, val: T -> real, k: int, h: int, j: nat)
    returns (i: nat)
    requires j < |Group(s, key, h)|
    ensures i < |s| && key(s[i]).hospital == h && GroupPos(s, key, i) == j
    ensures s[i] == Group(s, key, h)[j]
    ensures var g := Group(s, key, h);
            GroupShift(s, key, val, k, i) == if 0 <= j - k < |g| then Some(val(g[j - k])) else None
  {
    GroupOnto(s, key, h, j);
    i :| 0 <= i < |s| && key(s[i]).hospital == h && GroupPos(s, key, i) == j;
    GroupAt(s, key, i);
  }

  /** A group of a sorted frame is itself sorted. */
  lemma {:induction false} GroupSorted<T>(t: seq<T>, key: T -> FrameKey, h: int)
    requires SortedBy(t, key)
    ensures SortedBy(Group(t, key, h), key)
  {
    if t != [] {
      var rest := Group(t[1..], key, h);
      GroupSorted(t[1..], key, h);
      forall x | x in rest ensures KeyLe(key(t[0]), key(x)) {
        var m :| 0 <= m < |t[1..]| && t[1..][m] == x;
        assert t[1..][m] == t[m + 1];
      }
    }
  }

  /** The first row of a sorted frame's group is not smaller than the frame's first row. */
  lemma GroupHeadAfter<T>(t: seq<T>, key: T -> FrameKey, h: int)
    requires SortedBy(t, key) && Group(t, key, h) != []
    ensures KeyLe(key(t[0]), key(Group(t, key, h)[0]))
  {
    var g0 := Group(t, key, h)[0];
    assert g0 in Group(t, key, h);
    var m :| 0 <= m < |t| && t[m] == g0;
    if m > 0 {
      assert KeyLe(key(t[0]), key(t[m]));
    }
  }

  /** `GroupInsert` when the row goes to the front. */
  lemma GroupInsertFront<T>(x: T, t: seq<T>, key: T -> FrameKey, h: int)
    requires SortedBy(t, key)
    requires t == [] || KeyLe(key(x), key(t[0]))
    ensures Group(Insert(x, t, key), key, h)
            == if key(x).hospital == h then Insert(x, Group(t, key, h), key) else Group(t, key, h)
  {
    var g := Group(t, key, h);
    assert Insert(x, t, key) == [x] + t;
    assert ([x] + t)[1..] == t;
    if key(x).hospital == h {
      assert Group([x] + t, key, h) == [x] + g;
      if g != [] {
        GroupHeadAfter(t, key, h);
      }
      assert Insert(x, g, key) == [x] + g;
    } else {
      assert Group([x] + t, key, h) == g;
    }
  }

  /** Inserting into a sorted frame and then selecting a group is the same as
      inserting into the group (when the row belongs to it). */
  lemma {:induction false} GroupInsert<T>(x: T, t: seq<T>, key: T -> FrameKey, h: int)
    requires SortedBy(t, key)
    decreases |t|, 1
    ensures Group(Insert(x, t, key), key, h)
            == if key(x).hospital == h then Insert(x, Group(t, key, h), key) else Group(t, key, h)
  {
    if t == [] || KeyLe(key(x), key(t[0])) {
      GroupInsertFront(x, t, key, h);
    } else {
      GroupInsertLater(x, t, key, h);
    }
  }

  /** `GroupInsert` when the row goes after the frame's first row. */
  lemma {:induction false} GroupInsertLater<T>(x: T, t: seq<T>, key: T -> FrameKey, h: int)
    requires SortedBy(t, key)
    requires t != [] && !KeyLe(key(x), key(t[0]))
    decreases |t|, 0
    ensures Group(Insert(x, t, key), key, h)
            == if key(x).hospital == h then Insert(x, Group(t, key, h), key) else Group(t, key, h)
  {
    var t' := Insert(x, t[1..], key);
    var g' := Group(t[1..], key, h);
    assert Insert(x, t, key) == [t[0]] + t';
    assert ([t[0]] + t')[1..] == t';
    GroupInsert(x, t[1..], key, h);
    if key(t[0]).hospital == h {
      assert Group([t[0]] + t', key, h) == [t[0]] + Group(t', key, h);
      assert Group(t, key, h) == [t[0]] + g';
      if key(x).hospital == h {
        assert ([t[0]] + g')[1..] == g';
        assert Insert(x, [t[0]] + g', key) == [t[0]] + Insert(x, g', key);
      }
    } else {
      assert Group([t[0]] + t', key, h) == Group(t', key, h);
      assert Group(t, key, h) == g';
    }
  }

  /** Selecting a group commutes with the stable sort. */
  lemma {:induction false} GroupOfSort<T>(s: seq<T>, key: T -> FrameKey, h: int)
    ensures Group(SortBy(s, key), key, h) == SortBy(Group(s, key, h), key)
  {
    if s == [] {
    } else {
      var rest := SortBy(s[1..], key);
      assert SortBy(s, key) == Insert(s[0], rest, key);
      GroupOfSort(s[1..], key, h);
      SortBySorted(s[1..], key);
      GroupInsert(s[0], rest, key, h);
      var g := Group(s, key, h);
      var g' := Group(s[1..], key, h);
      if key(s[0]).hospital == h {
        assert g == [s[0]] + g';
        assert g[1..] == g';
        assert SortBy(g, key) == Insert(s[0], SortBy(g', key), key);
      } else {
        assert g == g';
      }
    }
  }

  // ----- Filtering rows (boolean indexing and `dropna`) -----

  /** `df[mask]`: the rows satisfying `p`, in frame order. */
  function Filter<T>(s: seq<T>, p: T -> bool): (r: seq<T>)
    ensures |r| <= |s|
    ensures forall x :: x in r ==> x in s && p(x)
  {
    if s == [] then []
    else (if p(s[0]) then [s[0]] else []) + Filter(s[1..], p)
  }

  /** Every row of `s` that satisfies `p` survives the filter. */
  lemma {:induction false} FilterKeeps<T>(s: seq<T>, p: T -> bool, x: T)
    requires x in s && p(x)
    ensures x in Filter(s, p)
  {
    if s[0] != x {
      FilterKeeps(s[1..], p, x);
    }
  }

  /** Filtering and then taking a group is taking the group and then filtering. */
  lemma {:induction false} GroupOfFilter<T>(s: seq<T>, p: T -> bool, key: T -> FrameKey, h: int)
    ensures Group(Filter(s, p), key, h) == Filter(Group(s, key, h), p)
  {
    if s != [] {
      GroupOfFilter(s[1..], p, key, h);
      var head := if p(s[0]) then [s[0]] else [];
      GroupAppend(head, Filter(s[1..], p), key, h);
      var g := Group(s, key, h);
      if key(s[0]).hospital == h {
        assert g == [s[0]] + Group(s[1..], key, h);
        assert g[1..] == Group(s[1..], key, h);
      } else {
        assert g == Group(s[1..], key, h);
      }
    }
  }

  /** A filter that keeps no row yields the empty frame. */
  lemma {:induction false} FilterNone<T>(s: seq<T>, p: T -> bool)
    requires forall j :: 0 <= j < |s| ==> !p(s[j])
    ensures Filter(s, p) == []
  {
    if s != [] {
      assert forall j :: 0 <= j < |s[1..]| ==> !p(s[1..][j]) by {
        forall j | 0 <= j < |s[1..]| ensures !p(s[1..][j]) {
          assert s[1..][j] == s[j + 1];
        }
      }
      FilterNone(s[1..], p);
    }
  }

  /** A filter that keeps exactly the positions `lo..hi` keeps that slice. */
  lemma {:induction false} FilterByPosition<T>(s: seq<T>, p: T -> bool, lo: nat, hi: nat)
    requires lo <= hi <= |s|
    requires forall j :: 0 <= j < |s| ==> (p(s[j]) <==> lo <= j < hi)
    ensures Filter(s, p) == s[lo..hi]
    decreases |s|
  {
    if lo == hi {
      FilterNone(s, p);
    } else {
      var lo' := if lo > 0 then lo - 1 else 0;
      ShiftedPositions(s, p, lo, hi, lo');
      FilterByPosition(s[1..], p, lo', hi - 1);
      assert p(s[0]) <==> lo == 0;
      if lo == 0 {
        FilterKeepHead(s, p, hi);
      } else {
        FilterDropHead(s, p, lo, hi);
      }
    }
  }

  /** The positions `FilterByPosition` keeps, seen from the tail. */
  lemma ShiftedPositions<T>(s: seq<T>, p: T -> bool, lo: nat, hi: nat, lo': nat)
    requires lo < hi <= |s| && lo' == if lo > 0 then lo - 1 else 0
    requires forall j :: 0 <= j < |s| ==> (p(s[j]) <==> lo <= j < hi)
    ensures forall j :: 0 <= j < |s[1..]| ==> (p(s[1..][j]) <==> lo' <= j < hi - 1)
  {
    var rest := s[1..];
    forall j | 0 <= j < |rest|
      ensures p(rest[j]) <==> lo' <= j < hi - 1
    {
      assert rest[j] == s[j + 1];
    }
  }

  /** One step of `FilterByPosition` when the range starts at the head, which is kept. */
  lemma FilterKeepHead<T>(s: seq<T>, p: T -> bool, hi: nat)
    requires 0 < hi <= |s| && p(s[0])
    requires Filter(s[1..], p) == s[1..][0..hi - 1]
    ensures Filter(s, p) == s[0..hi]
  {
    assert s[0..hi] == [s[0]] + s[1..][0..hi - 1];
  }

  /** One step of `FilterByPosition` when the range starts later, and the head is dropped. */
  lemma FilterDropHead<T>(s: seq<T>, p: T -> bool, lo: nat, hi: nat)
    requires 0 < lo < hi <= |s| && !p(s[0])
    requires Filter(s[1..], p) == s[1..][lo - 1..hi - 1]
    ensures Filter(s, p) == s[lo..hi]
  {
    assert s[lo..hi] == s[1..][lo - 1..hi - 1];
  }

  /** `g[lo..hi]`, empty when the range is. */
  function Slice<T>(g: seq<T>, lo: int, hi: int): seq<T>
    requires 0 <= lo && hi <= |g|
  {
    if lo < hi then g[lo..hi] else []
  }

  /** A filter that keeps exactly the positions `lo <= j < hi` of one group leaves of that
      group the slice between them. */
  lemma FilterGroupByPosition<T>(t: seq<T>, p: T -> bool, key: T -> FrameKey, h: int, lo: int, hi: int)
    requires forall j :: 0 <= j < |Group(t, key, h)| ==> (p(Group(t, key, h)[j]) <==> lo <= j < hi)
    requires 0 <= lo && hi <= |Group(t, key, h)|
    ensures Group(Filter(t, p), key, h) == Slice(Group(t, key, h), lo, hi)
  {
    var g := Group(t, key, h);
    GroupOfFilter(t, p, key, h);
    if lo < hi {
      FilterByPosition(g, p, lo, hi);
    } else {
      FilterByPosition(g, p, 0, 0);
    }
  }

  /** Filtering keeps a frame sorted. */
  lemma {:induction false} FilterSorted<T>(s: seq<T>, p: T -> bool, key: T -> FrameKey)
    requires SortedBy(s, key)
    ensures SortedBy(Filter(s, p), key)
  {
    if s != [] {
      FilterSorted(s[1..], p, key);
      forall x | x in Filter(s[1..], p) ensures KeyLe(key(s[0]), key(x)) {
        var m :| 0 <= m < |s[1..]| && s[1..][m] == x;
        assert s[1..][m] == s[m + 1];
      }
    }
  }

  // ----- The group shift read by index on a sorted frame -----

  lemma {:induction false} GroupOfSame<T>(s: seq<T>, key: T -> FrameKey, h: int)
    requires forall i :: 0 <= i < |s| ==> key(s[i]).hospital == h
    ensures Group(s, key, h) == s
  {
    if s != [] {
      GroupOfSame(s[1..], key, h);
    }
  }

  lemma {:induction false} GroupOfNone<T>(s: seq<T>, key: T -> FrameKey, h: int)
    requires forall i :: 0 <= i < |s| ==> key(s[i]).hospital != h
    ensures Group(s, key, h) == []
  {
    if s != [] {
      GroupOfNone(s[1..], key, h);
    }
  }

  lemma GroupSplit<T>(s: seq<T>, a: nat, b: nat, key: T -> FrameKey, h: int)
    requires a <= b <= |s|
    ensures Group(s[..b], key, h) == Group(s[..a], key, h) + Group(s[a..b], key, h)
  {
    assert s[..b] == s[..a] + s[a..b];
    GroupAppend(s[..a], s[a..b], key, h);
  }

  /** In a sorted frame, two rows of the same hospital are as far apart in the group
      as in the frame: every row between them belongs to that hospital too. */
  lemma GroupPosDistance<T>(s: seq<T>, key: T -> FrameKey, a: nat, b: nat)
    requires SortedBy(s, key)
    requires a <= b < |s| && key(s[a]).hospital == key(s[b]).hospital
    ensures GroupPos(s, key, b) == GroupPos(s, key, a) + (b - a)
  {
    var h := key(s[a]).hospital;
    GroupSplit(s, a, b, key, h);
    forall m | 0 <= m < |s[a..b]| ensures key(s[a..b][m]).hospital == h {
      assert s[a..b][m] == s[a + m];
      assert KeyLe(key(s[a]), key(s[a + m]));
      if a + m < b {
        assert KeyLe(key(s[a + m]), key(s[b]));
      }
    }
    GroupOfSame(s[a..b], key, h);
  }

  /** In a sorted frame, a row of a smaller hospital at `j` leaves row `i`
      fewer than `i - j` earlier rows in its group. */
  lemma GroupPosAfterOther<T>(s: seq<T>, key: T -> FrameKey, j: nat, i: nat)
    requires SortedBy(s, key)
    requires j < i < |s| && key(s[j]).hospital != key(s[i]).hospital
    ensures GroupPos(s, key, i) < i - j
  {
    var h := key(s[i]).hospital;
    GroupSplit(s, j + 1, i, key, h);
    var before := s[..j + 1];
    forall m | 0 <= m < |before| ensures key(before[m]).hospital != h {
      assert before[m] == s[m];
      if m < j {
        assert KeyLe(key(s[m]), key(s[j]));
      }
      assert KeyLe(key(s[j]), key(s[i]));
    }
    GroupOfNone(s[..j + 1], key, h);
  }

  /** In a sorted frame, a row of a larger hospital at `j` (or the end of the frame)
      leaves row `i` fewer than `j - i` later rows in its group. */
  lemma GroupPosBeforeOther<T>(s: seq<T>, key: T -> FrameKey, i: nat, j: nat)
    requires SortedBy(s, key)
    requires i < j && i < |s|
    requires j < |s| ==> key(s[j]).hospital != key(s[i]).hospital
    ensures |Group(s, key, key(s[i]).hospital)| < GroupPos(s, key, i) + (j - i) + 1
  {
    var h := key(s[i]).hospital;
    var e := if j < |s| then j else |s|;
    GroupSplit(s, i, e, key, h);
    GroupSplit(s, e, |s|, key, h);
    assert s[..|s|] == s;
    if j < |s| {
      HospitalsAfter(s, key, i, j);
    } else {
      GroupOfNone(s[e..|s|], key, h);
    }
  }

  /** In a sorted frame, once a later row leaves a hospital, none of the rows from there
      on belongs to it. */
  lemma HospitalsAfter<T>(s: seq<T>, key: T -> FrameKey, i: nat, j: nat)
    requires SortedBy(s, key)
    requires i < j < |s| && key(s[j]).hospital != key(s[i]).hospital
    ensures Group(s[j..|s|], key, key(s[i]).hospital) == []
  {
    var h := key(s[i]).hospital;
    var rest := s[j..|s|];
    forall m | 0 <= m < |rest|
      ensures key(rest[m]).hospital != h
    {
      assert rest[m] == s[j + m];
      assert KeyLe(key(s[i]), key(s[j]));
      if m > 0 {
        assert KeyLe(key(s[j]), key(s[j + m]));
      }
    }
    GroupOfNone(rest, key, h);
  }

  /** On a frame sorted by hospital, the group shift by `k` at row `i` is simply the row
      `k` places earlier (later, for negative `k`), provided that row exists and belongs
      to the same hospital: a shift never reaches across a hospital boundary. */
  lemma GroupShiftSorted<T>(s: seq<T>, key: T -> FrameKey, val: T -> real, k: int, i: nat)
    requires SortedBy(s, key) && i < |s|
    ensures GroupShift(s, key, val, k, i)
            == if 0 <= i - k < |s| && key(s[i - k]).hospital == key(s[i]).hospital
               then Some(val(s[i - k])) else None
  {
    var j := i - k;
    var h := key(s[i]).hospital;
    var g := Group(s, key, h);
    var pos := GroupPos(s, key, i) - k;
    if 0 <= j < |s| && key(s[j]).hospital == h {
      if j <= i {
        GroupPosDistance(s, key, j, i);
      } else {
        GroupPosDistance(s, key, i, j);
      }
      GroupAt(s, key, j);
      assert pos == GroupPos(s, key, j) && g[pos] == s[j];
    } else {
      if j < 0 {
      } else if j < i {
        GroupPosAfterOther(s, key, j, i);
      } else {
        GroupPosBeforeOther(s, key, i, j);
      }
      assert !(0 <= pos < |g|);
    }
  }

  /** `t` extends the rows of `s` (`proj` recovers them, with the same hospital); its column
      `tval` copies `val`, and its column `shift` is the group shift by `k` of `val`. */
  ghost predicate MappedShift<T, U(!new)>(s: seq<T>, t: seq<U>, ks: T -> FrameKey, kt: U -> FrameKey,
                                    proj: U -> T, val: T -> real, tval: U -> real,
                                    shift: U -> Option<real>, k: int)
  {
    && |t| == |s|
    && (forall i :: 0 <= i < |t| ==> proj(t[i]) == s[i])
    && (forall u :: kt(u).hospital == ks(proj(u)).hospital)
    && (forall i :: 0 <= i < |t| ==> tval(t[i]) == val(s[i]))
    && (forall i :: 0 <= i < |t| ==> shift(t[i]) == GroupShiftColumn(s, ks, val, k)[i])
  }

  /** A frame `t` whose rows extend the rows of `s` (`proj` recovers them) and carry, in a
      column `shift`, the group shift by `k` of `val` over `s`, and in a column `tval` that
      same value: within each group of `t`, the shifted column at position `j` holds the
      `tval` of position `j - k`, and is absent when there is none. */
  lemma {:induction false} ShiftOfMapped<T, U(!new)>(s: seq<T>, t: seq<U>, ks: T -> FrameKey, kt: U -> FrameKey,
                                             proj: U -> T, val: T -> real, tval: U -> real,
                                             shift: U -> Option<real>, k: int, h: int, j: nat)
    requires MappedShift(s, t, ks, kt, proj, val, tval, shift, k)
    requires j < |Group(t, kt, h)|
    ensures var g := Group(t, kt, h);
            shift(g[j]) == if 0 <= j - k < |g| then Some(tval(g[j - k])) else None
  {
    var g, gs := Group(t, kt, h), Group(s, ks, h);
    GroupMapped(s, t, ks, kt, proj, h);
    var i := GroupShiftInGroup(s, ks, val, k, h, j);
    GroupShiftColumnAt(s, ks, val, k, i);
    GroupMappedPos(s, t, ks, kt, proj, i);
    GroupAt(t, kt, i);
    assert g[j] == t[i];
    if 0 <= j - k < |g| {
      assert g[j - k] in t;
      var m :| 0 <= m < |t| && t[m] == g[j - k];
      assert tval(g[j - k]) == val(gs[j - k]);
    }
  }

  /** The same column read by index when `s` is sorted: it holds the `tval` of the row `k`
      places earlier when that row exists and belongs to the same group. */
  lemma {:induction false} ShiftOfMappedSorted<T, U(!new)>(s: seq<T>, t: seq<U>, ks: T -> FrameKey, kt: U -> FrameKey,
                                                   proj: U -> T, val: T -> real, tval: U -> real,
                                                   shift: U -> Option<real>, k: int, i: nat, from: int)
    requires SortedBy(s, ks)
    requires MappedShift(s, t, ks, kt, proj, val, tval, shift, k) && i < |t| && from == i - k
    ensures shift(t[i]) == if 0 <= from < |t| && kt(t[from]).hospital == kt(t[i]).hospital
                           then Some(tval(t[from])) else None
  {
    GroupShiftColumnAt(s, ks, val, k, i);
    GroupShiftSorted(s, ks, val, k, i);
    if 0 <= i - k < |t| {
      assert proj(t[i - k]) == s[i - k];
    }
    assert proj(t[i]) == s[i];
  }
}
