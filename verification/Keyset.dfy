/**
 The order theory behind keyset pagination: rows carry a three-part key, a query
 lists the rows strictly below (or above) a cursor in key order, and cutting the
 table at a listed key is the same as dropping a prefix of the ordered list.
 */
module Keyset {
  import opened Prelude

  /** `major` is the pinned flag of the chat list and 0 for the two-column orders. */
  datatype Key = Key(major: int, time: int, id: int)

  /** Postgres row-wise `<`, which is lexicographic. */
  predicate Less(x: Key, y: Key) {
    || x.major < y.major
    || (x.major == y.major && x.time < y.time)
    || (x.major == y.major && x.time == y.time && x.id < y.id)
  }

  ghost predicate Descending(r: seq<Key>) {
    forall i, j :: 0 <= i < j < |r| ==> Less(r[j], r[i])
  }

  ghost predicate Lists(r: seq<Key>, s: set<Key>) {
    forall k :: k in r <==> k in s
  }

  ghost predicate IsGreatest(m: Key, s: set<Key>) {
    m in s && forall k :: k in s && k != m ==> Less(k, m)
  }

  lemma {:induction false} GreatestExists(s: set<Key>)
    requires s != {}
    ensures exists m :: IsGreatest(m, s)
  {
    var x :| x in s;
    var t := s - {x};
    if t == {} {
      assert s == {x};
      assert IsGreatest(x, s);
    } else {
      GreatestExists(t);
      var m :| IsGreatest(m, t);
      var g := if Less(x, m) then m else x;
      forall k | k in s && k != g ensures Less(k, g) {
        if k != x {
          assert k in t;
        }
      }
      assert IsGreatest(g, s);
    }
  }

  function Greatest(s: set<Key>): (m: Key)
    requires s != {}
    ensures IsGreatest(m, s)
  {
    GreatestExists(s);
    var m :| m in s && forall k :: k in s && k != m ==> Less(k, m);
    m
  }

  /** `ORDER BY ... DESC` over a table whose keys are distinct. */
  function Desc(s: set<Key>): (r: seq<Key>)
    ensures |r| == |s|
  {
    if s == {} then [] else
      var m := Greatest(s);
      [m] + Desc(s - {m})
  }

  /** The listing is strictly descending and holds exactly the keys of the table. */
  lemma {:induction false} DescSorted(s: set<Key>)
    ensures Descending(Desc(s)) && Lists(Desc(s), s)
  {
    if s != {} {
      var m := Greatest(s);
      var rest := Desc(s - {m});
      DescSorted(s - {m});
      assert forall j :: 0 <= j < |rest| ==> rest[j] in rest && Less(rest[j], m);
      assert forall k :: k in [m] + rest <==> k == m || k in rest;
    }
  }

  lemma {:induction false} DescMember(s: set<Key>, i: nat)
    requires i < |s|
    ensures Desc(s)[i] in s
  {
    DescSorted(s);
    assert Desc(s)[i] in Desc(s);
  }

  lemma {:induction false} HeadIsGreatest(r: seq<Key>, s: set<Key>)
    requires Descending(r) && Lists(r, s) && r != []
    ensures r[0] in s && r[0] == Greatest(s)
  {
    assert r[0] in r && r[0] in s;
    var m := Greatest(s);
    assert m in r;
    var j :| 0 <= j < |r| && r[j] == m;
    if j != 0 {
      assert Less(r[j], r[0]);
    }
  }

  lemma {:induction false} TailLists(r: seq<Key>, s: set<Key>)
    requires Descending(r) && Lists(r, s) && r != []
    ensures Descending(r[1..]) && Lists(r[1..], s - {r[0]})
  {
    var tail := r[1..];
    assert forall j :: 0 <= j < |tail| ==> tail[j] == r[j + 1] && Less(tail[j], r[0]);
    assert forall k :: k in r <==> k == r[0] || k in tail;
  }

  /** A strictly descending listing of a set is the listing of that set. */
  lemma {:induction false} DescUnique(r: seq<Key>, s: set<Key>)
    requires Descending(r) && Lists(r, s)
    ensures r == Desc(s)
  {
    if r == [] {
      assert forall k :: k in s ==> k in r;
      assert s == {};
    } else {
      HeadIsGreatest(r, s);
      TailLists(r, s);
      DescUnique(r[1..], s - {r[0]});
      assert r == [r[0]] + r[1..];
    }
  }

  function Below(s: set<Key>, c: Key): set<Key> {
    set k | k in s && Less(k, c)
  }

  function Above(s: set<Key>, c: Key): set<Key> {
    set k | k in s && Less(c, k)
  }

  /** The rows a listing with this cursor ranges over. */
  function Under(s: set<Key>, c: Option<Key>): set<Key> {
    if c.None? then s else Below(s, c.value)
  }

  /** In a listing, exactly the later positions hold smaller keys. */
  lemma {:induction false} PositionOrder(d: seq<Key>, i: nat, j: nat)
    requires Descending(d) && i < |d| && j < |d|
    ensures Less(d[j], d[i]) <==> i < j
  {
    if i < j {
      assert Less(d[j], d[i]);
    } else if j < i {
      assert Less(d[i], d[j]);
    }
  }

  lemma {:induction false} DropLists(d: seq<Key>, s: set<Key>, i: nat)
    requires Descending(d) && Lists(d, s) && i < |d|
    ensures Descending(d[i + 1..]) && Lists(d[i + 1..], Below(s, d[i]))
    ensures Descending(d[..i]) && Lists(d[..i], Above(s, d[i]))
  {
    forall k ensures k in d[i + 1..] <==> k in Below(s, d[i])
             ensures k in d[..i] <==> k in Above(s, d[i]) {
      assert k in s <==> k in d;
      if k in d {
        var j :| 0 <= j < |d| && d[j] == k;
        PositionOrder(d, i, j);
        PositionOrder(d, j, i);
        ElementOfSlice(d, j, i);
      }
    }
  }

  lemma {:induction false} ElementOfSlice(d: seq<Key>, j: nat, i: nat)
    requires Descending(d) && j < |d| && i < |d|
    ensures d[j] in d[i + 1..] <==> i < j
    ensures d[j] in d[..i] <==> j < i
  {
    if i < j {
      assert d[i + 1..][j - i - 1] == d[j];
    }
    if j < i {
      assert d[..i][j] == d[j];
    }
    if d[j] in d[i + 1..] {
      var m :| 0 <= m < |d[i + 1..]| && d[i + 1..][m] == d[j];
      PositionOrder(d, j, i + 1 + m);
      PositionOrder(d, i + 1 + m, j);
    }
    if d[j] in d[..i] {
      var m :| 0 <= m < i && d[..i][m] == d[j];
      PositionOrder(d, j, m);
      PositionOrder(d, m, j);
    }
  }

  /** Cutting the table at the i-th listed key drops the first i + 1 keys of the listing. */
  lemma {:induction false} CutBelow(s: set<Key>, i: nat)
    requires i < |Desc(s)|
    ensures Desc(Below(s, Desc(s)[i])) == Desc(s)[i + 1..]
  {
    DescSorted(s);
    DropLists(Desc(s), s, i);
    DescUnique(Desc(s)[i + 1..], Below(s, Desc(s)[i]));
  }

  /** Dually, the keys above the i-th listed key are the first i keys of the listing. */
  lemma {:induction false} CutAbove(s: set<Key>, i: nat)
    requires i < |Desc(s)|
    ensures Desc(Above(s, Desc(s)[i])) == Desc(s)[..i]
  {
    DescSorted(s);
    DropLists(Desc(s), s, i);
    DescUnique(Desc(s)[..i], Above(s, Desc(s)[i]));
  }

  function Reverse<T>(r: seq<T>): (v: seq<T>)
    ensures |v| == |r|
    ensures forall i :: 0 <= i < |r| ==> v[i] == r[|r| - 1 - i]
  {
    if r == [] then [] else Reverse(r[1..]) + [r[0]]
  }

  lemma {:induction false} ReverseConcat<T>(a: seq<T>, b: seq<T>)
    ensures Reverse(a + b) == Reverse(b) + Reverse(a)
  {
    var parts := Reverse(b) + Reverse(a);
    forall k | 0 <= k < |a + b| ensures Reverse(a + b)[k] == parts[k] {
    }
  }

  /** `ORDER BY ... ASC`. */
  function Asc(s: set<Key>): seq<Key> {
    Reverse(Desc(s))
  }

  lemma {:induction false} ReverseTake<T>(r: seq<T>, n: nat)
    requires n <= |r|
    ensures Reverse(r[..n]) == Reverse(r)[|r| - n..]
    ensures Reverse(r[n..]) == Reverse(r)[..|r| - n]
  {
    forall k | 0 <= k < n ensures Reverse(r[..n])[k] == Reverse(r)[|r| - n..][k] {
    }
    forall k | 0 <= k < |r| - n ensures Reverse(r[n..])[k] == Reverse(r)[..|r| - n][k] {
    }
  }

  lemma {:induction false} ReverseMembers<T>(r: seq<T>, k: T)
    ensures k in Reverse(r) <==> k in r
  {
    if k in r {
      var i :| 0 <= i < |r| && r[i] == k;
      assert Reverse(r)[|r| - 1 - i] == k;
    }
    if k in Reverse(r) {
      var i :| 0 <= i < |r| && Reverse(r)[i] == k;
      assert r[|r| - 1 - i] == k;
    }
  }

  lemma {:induction false} AscAt(s: set<Key>, i: nat)
    requires i < |s|
    ensures |Asc(s)| == |s| && Asc(s)[i] == Desc(s)[|s| - 1 - i]
  {
  }

  lemma {:induction false} CutReversed(s: set<Key>, m: nat, c: Key)
    requires m < |s| && c == Desc(s)[m]
    ensures Asc(Above(s, c)) == Reverse(Desc(s))[|s| - m..]
  {
    CutAbove(s, m);
    ReverseTake(Desc(s), m);
  }

  /** Cutting an ascending listing after one of its keys. */
  lemma {:induction false} CutAscending(s: set<Key>, i: nat)
    requires i < |s|
    ensures Asc(s)[i] in s
    ensures Asc(Above(s, Asc(s)[i])) == Asc(s)[i + 1..]
  {
    AscAt(s, i);
    DescMember(s, |s| - 1 - i);
    CutReversed(s, |s| - 1 - i, Asc(s)[i]);
  }

  /** Keys are totally ordered. */
  lemma LessTotal(x: Key, y: Key)
    ensures x == y || Less(x, y) || Less(y, x)
    ensures !(Less(x, y) && Less(y, x)) && !Less(x, x)
  {
  }

  lemma LessAcross(x: Key, c: Key, y: Key)
    requires Less(x, c) && Less(c, y)
    ensures Less(x, y)
  {
  }

  /** Listing the keys above a cursor, then the cursor if it is a row, then the keys below it. */
  lemma {:induction false} DescAround(s: set<Key>, c: Key)
    ensures Desc(s) == Desc(Above(s, c)) + (if c in s then [c] else []) + Desc(Below(s, c))
  {
    var up, mid, down := Desc(Above(s, c)), if c in s then [c] else [], Desc(Below(s, c));
    var all := up + mid + down;
    DescSorted(Above(s, c));
    DescSorted(Below(s, c));
    forall k ensures k in all <==> k in s {
      LessTotal(k, c);
      assert k in all <==> k in up || k in mid || k in down;
    }
    forall i, j | 0 <= i < j < |all| ensures Less(all[j], all[i]) {
      DescAroundOrdered(up, mid, down, c, i, j);
    }
    DescUnique(all, s);
  }

  lemma {:induction false} DescAroundOrdered(up: seq<Key>, mid: seq<Key>, down: seq<Key>, c: Key, i: nat, j: nat)
    requires Descending(up) && Descending(down) && (mid == [] || mid == [c])
    requires (forall k :: k in up ==> Less(c, k)) && (forall k :: k in down ==> Less(k, c))
    requires i < j < |up + mid + down|
    ensures Less((up + mid + down)[j], (up + mid + down)[i])
  {
    var m := |up| + |mid|;
    if j < |up| {
      assert Less(up[j], up[i]);
    } else if m <= i {
      assert Less(down[j - m], down[i - m]);
    } else {
      assert i < |up| ==> up[i] in up;
      assert m <= j ==> down[j - m] in down;
      if i < |up| && m <= j {
        LessAcross(down[j - m], c, up[i]);
      }
    }
  }

  lemma {:induction false} ReverseThree(up: seq<Key>, mid: seq<Key>, down: seq<Key>)
    requires |mid| <= 1
    ensures Reverse(up + mid + down) == Reverse(down) + mid + Reverse(up)
  {
    ReverseConcat(up + mid, down);
    ReverseConcat(up, mid);
    assert Reverse(mid) == mid;
  }

  /** Cutting an ascending listing at a cursor, whether or not the cursor is one of its rows. */
  lemma {:induction false} SplitAt(s: set<Key>, c: Key)
    ensures Asc(s) == Asc(Below(s, c)) + (if c in s then [c] else []) + Asc(Above(s, c))
  {
    DescAround(s, c);
    ReverseThree(Desc(Above(s, c)), if c in s then [c] else [], Desc(Below(s, c)));
  }

  function Flatten<T>(pages: seq<seq<T>>): seq<T> {
    if pages == [] then [] else pages[0] + Flatten(pages[1..])
  }
}
