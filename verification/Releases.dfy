/**
  Pruning of release directories (release.go, selectStaleReleases): newest first by modification
  time, ties by name; everything past the first keep entries is stale. Entries that cannot be
  statted are neither kept nor removed.
 */
module Releases {
  import opened Basics
  import opened ThreeWay
  import opened PreRelease
  import opened Item11

  /** A directory entry; info is its modification time, or None when Info() fails. */
  datatype DirEntry = DirEntry(name: string, info: Option<int>)

  datatype Entry = Entry(name: string, modTime: int)

  /** Negative when a comes first. */
  function Rank(a: Entry, b: Entry): int {
    if a.modTime != b.modTime then b.modTime - a.modTime else StringCompare(a.name, b.name)
  }

  /** The newer comes first; of equally old ones the one with the smaller name. */
  lemma RankExactly(a: Entry, b: Entry)
    ensures Rank(a, b) < 0 <==> a.modTime > b.modTime || (a.modTime == b.modTime && TextLess(a.name, b.name))
    ensures Rank(a, b) == 0 <==> a == b
  {
    TextLessIsCompare(a.name, b.name);
    RankTotal();
    assert Rank(a, b) == 0 <==> a == b;
  }

  lemma RankTotal()
    ensures Total(Rank)
  {
    CharCmpTotal();
    forall a, b ensures (Rank(a, b) == 0 <==> a == b) && (Rank(a, b) < 0 <==> Rank(b, a) > 0) {
      LexZero(CharCmp, a.name, b.name);
      LexFlip(CharCmp, a.name, b.name);
    }
    forall a, b, c | Rank(a, b) <= 0 && Rank(b, c) <= 0 ensures Rank(a, c) <= 0 {
      if a.modTime == b.modTime == c.modTime { LexTransitive(CharCmp, a.name, b.name, c.name); }
    }
  }

  /** The entries that can be statted. */
  function Stat(files: seq<DirEntry>): seq<Entry> {
    if files == [] then []
    else
      var f := files[|files| - 1];
      Stat(files[..|files| - 1]) + if f.info.Some? then [Entry(f.name, f.info.value)] else []
  }

  ghost predicate Sorted(s: seq<Entry>) {
    forall i, j :: 0 <= i < j < |s| ==> Rank(s[i], s[j]) <= 0
  }

  /** sort.Slice with Rank; which algorithm is immaterial by SortedUnique. */
  function Sort(s: seq<Entry>): seq<Entry> {
    if s == [] then [] else Insert(s[0], Sort(s[1..]))
  }

  function Insert(e: Entry, s: seq<Entry>): seq<Entry> {
    if s == [] || Rank(e, s[0]) <= 0 then [e] + s else [s[0]] + Insert(e, s[1..])
  }

  lemma {:induction false} InsertPermutes(e: Entry, s: seq<Entry>)
    ensures multiset(Insert(e, s)) == multiset(s) + multiset{e}
  {
    if s != [] && Rank(e, s[0]) > 0 {
      InsertPermutes(e, s[1..]);
      assert s == [s[0]] + s[1..];
    }
  }

  lemma {:induction false} SortPermutes(s: seq<Entry>)
    ensures multiset(Sort(s)) == multiset(s)
  {
    if s != [] {
      SortPermutes(s[1..]);
      InsertPermutes(s[0], Sort(s[1..]));
      assert s == [s[0]] + s[1..];
    }
  }

  lemma SortedCons(e: Entry, s: seq<Entry>)
    requires Sorted(s) && forall x :: x in s ==> Rank(e, x) <= 0
    ensures Sorted([e] + s)
  {
    forall i, j | 0 <= i < j < |s| + 1 ensures Rank(([e] + s)[i], ([e] + s)[j]) <= 0 {
      if i == 0 { assert s[j - 1] in s; }
    }
  }

  lemma BeforeAll(e: Entry, s: seq<Entry>)
    requires Sorted(s) && s != [] && Rank(e, s[0]) <= 0
    ensures forall x :: x in s ==> Rank(e, x) <= 0
  {
    RankTotal();
    forall x | x in s ensures Rank(e, x) <= 0 {
      var i :| 0 <= i < |s| && s[i] == x;
      assert i > 0 ==> Rank(s[0], s[i]) <= 0;
    }
  }

  lemma HeadBeforeInsert(e: Entry, s: seq<Entry>)
    requires Sorted(s) && s != [] && Rank(e, s[0]) > 0
    ensures forall x :: x in Insert(e, s[1..]) ==> Rank(s[0], x) <= 0
  {
    InsertPermutes(e, s[1..]);
    assert Rank(s[0], e) <= 0 by { RankTotal(); }
    forall x | x in Insert(e, s[1..]) ensures Rank(s[0], x) <= 0 {
      assert x in multiset(Insert(e, s[1..]));
      assert x == e || x in s[1..];
    }
  }

  lemma {:induction false} InsertSorts(e: Entry, s: seq<Entry>)
    requires Sorted(s)
    ensures Sorted(Insert(e, s))
  {
    if s == [] {
      SortedCons(e, s);
    } else if Rank(e, s[0]) <= 0 {
      BeforeAll(e, s);
      SortedCons(e, s);
    } else {
      InsertSorts(e, s[1..]);
      HeadBeforeInsert(e, s);
      SortedCons(s[0], Insert(e, s[1..]));
    }
  }

  lemma {:induction false} SortSorts(s: seq<Entry>)
    ensures Sorted(Sort(s))
  {
    if s != [] {
      SortSorts(s[1..]);
      InsertSorts(s[0], Sort(s[1..]));
    }
  }

  lemma TailMultiset<T>(s: seq<T>)
    requires s != []
    ensures multiset(s) == multiset(s[1..]) + multiset{s[0]}
  {
    assert s == [s[0]] + s[1..];
  }

  lemma SplitMultiset<T>(t: seq<T>, i: nat)
    requires i < |t|
    ensures t == t[..i] + ([t[i]] + t[i + 1..])
    ensures multiset(t) == multiset(t[..i] + t[i + 1..]) + multiset{t[i]}
  {
    assert t == t[..i] + ([t[i]] + t[i + 1..]);
  }

  lemma CancelMultiset<T>(a: multiset<T>, b: multiset<T>, x: T)
    requires a + multiset{x} == b + multiset{x}
    ensures a == b
  {
    assert a == (a + multiset{x}) - multiset{x};
    assert b == (b + multiset{x}) - multiset{x};
  }

  /** The first element of s taken out of a rearrangement t leaves a rearrangement of the rest. */
  lemma TakeOut<T>(s: seq<T>, t: seq<T>) returns (i: nat)
    requires s != [] && multiset(s) == multiset(t)
    ensures i < |t| && t[i] == s[0] && t == t[..i] + ([t[i]] + t[i + 1..])
    ensures multiset(s[1..]) == multiset(t[..i] + t[i + 1..])
  {
    assert s[0] in multiset(t);
    i :| 0 <= i < |t| && t[i] == s[0];
    TailMultiset(s);
    SplitMultiset(t, i);
    CancelMultiset(multiset(s[1..]), multiset(t[..i] + t[i + 1..]), s[0]);
  }

  lemma EmptyRearranged<T>(t: seq<T>)
    requires multiset(t) == multiset{}
    ensures t == []
  {
    if t != [] { TailMultiset(t); }
  }

  lemma HeadFirst(s: seq<Entry>, t: seq<Entry>)
    requires Sorted(s) && s != [] && t != [] && multiset(s) == multiset(t)
    ensures Rank(s[0], t[0]) <= 0
  {
    assert t[0] in multiset(s);
    var i :| 0 <= i < |s| && s[i] == t[0];
    RankTotal();
  }

  /** A list has one sorted arrangement, so the result does not depend on the sorting algorithm. */
  lemma {:induction false} SortedUnique(s: seq<Entry>, t: seq<Entry>)
    requires Sorted(s) && Sorted(t) && multiset(s) == multiset(t)
    ensures s == t
    decreases |s|
  {
    if s == [] {
      EmptyRearranged(t);
    } else if t == [] {
      EmptyRearranged(s);
    } else {
      HeadFirst(s, t);
      HeadFirst(t, s);
      assert s[0] == t[0] by { RankTotal(); }
      TailMultiset(s);
      TailMultiset(t);
      CancelMultiset(multiset(s[1..]), multiset(t[1..]), s[0]);
      SortedUnique(s[1..], t[1..]);
      assert s == [s[0]] + s[1..] && t == [t[0]] + t[1..];
    }
  }

  // ----- how many entries rank before one -----

  function CountBefore(s: seq<Entry>, e: Entry): nat {
    if s == [] then 0 else (if Rank(s[0], e) < 0 then 1 else 0) + CountBefore(s[1..], e)
  }

  lemma {:induction false} CountConcat(s: seq<Entry>, t: seq<Entry>, e: Entry)
    ensures CountBefore(s + t, e) == CountBefore(s, e) + CountBefore(t, e)
  {
    if s == [] {
      assert s + t == t;
    } else {
      assert (s + t)[1..] == s[1..] + t;
      CountConcat(s[1..], t, e);
    }
  }

  lemma {:induction false} CountPermutes(s: seq<Entry>, t: seq<Entry>, e: Entry)
    requires multiset(s) == multiset(t)
    ensures CountBefore(s, e) == CountBefore(t, e)
    decreases |s|
  {
    if s == [] {
      EmptyRearranged(t);
    } else {
      var i := TakeOut(s, t);
      CountPermutes(s[1..], t[..i] + t[i + 1..], e);
      CountConcat(t[..i], t[i + 1..], e);
      CountConcat(t[..i], [t[i]] + t[i + 1..], e);
      assert ([t[i]] + t[i + 1..])[1..] == t[i + 1..];
    }
  }

  lemma {:induction false} CountAll(s: seq<Entry>, e: Entry)
    requires forall i :: 0 <= i < |s| ==> Rank(s[i], e) < 0
    ensures CountBefore(s, e) == |s|
  {
    if s != [] { CountAll(s[1..], e); }
  }

  lemma {:induction false} CountNone(s: seq<Entry>, e: Entry)
    requires forall i :: 0 <= i < |s| ==> Rank(s[i], e) >= 0
    ensures CountBefore(s, e) == 0
  {
    if s != [] { CountNone(s[1..], e); }
  }

  predicate Distinct(s: seq<Entry>) {
    forall i, j :: 0 <= i < j < |s| ==> s[i] != s[j]
  }

  lemma StrictlyBefore(s: seq<Entry>, i: nat, j: nat)
    requires Sorted(s) && Distinct(s) && i < j < |s|
    ensures Rank(s[i], s[j]) < 0
  {
    RankTotal();
    assert s[i] != s[j];
  }

  lemma NotBefore(s: seq<Entry>, i: nat, j: nat)
    requires Sorted(s) && i <= j < |s|
    ensures Rank(s[j], s[i]) >= 0
  {
    RankTotal();
    if i < j { assert Rank(s[i], s[j]) <= 0; }
  }

  /** In a sorted list without repetitions, the position of an entry is the number ranking before it. */
  lemma PositionIsRank(s: seq<Entry>, i: nat)
    requires Sorted(s) && Distinct(s) && i < |s|
    ensures CountBefore(s, s[i]) == i
  {
    var e := s[i];
    assert s == s[..i] + s[i..];
    forall j | 0 <= j < i ensures Rank(s[..i][j], e) < 0 {
      StrictlyBefore(s, j, i);
    }
    forall j | 0 <= j < |s| - i ensures Rank(s[i..][j], e) >= 0 {
      NotBefore(s, i, i + j);
    }
    CountAll(s[..i], e);
    CountNone(s[i..], e);
    CountConcat(s[..i], s[i..], e);
  }

  // ----- selection -----

  /** The stale entries, newest first. */
  function Stale(files: seq<DirEntry>, keep: nat): seq<Entry> {
    var s := Sort(Stat(files));
    if |s| <= keep then [] else s[keep..]
  }

  function Names(s: seq<Entry>): seq<string> {
    seq(|s|, i requires 0 <= i < |s| => s[i].name)
  }

  method SelectStaleReleases(files: seq<DirEntry>, keep: nat) returns (stale: seq<string>)
    ensures stale == Names(Stale(files, keep))
  {
    var stat: seq<Entry> := [];
    for i := 0 to |files|
      invariant stat == Stat(files[..i])
    {
      assert files[..i + 1][..i] == files[..i];
      if files[i].info.None? {
        continue;
      }
      stat := stat + [Entry(files[i].name, files[i].info.value)];
    }
    assert files[..|files|] == files;
    stat := Sort(stat);
    if |stat| <= keep {
      return [];
    }
    stale := [];
    for i := keep to |stat|
      invariant stale == Names(stat[keep..i])
    {
      assert stat[keep..i + 1] == stat[keep..i] + [stat[i]];
      stale := stale + [stat[i].name];
    }
    assert stat[keep..|stat|] == stat[keep..];
  }

  ghost predicate DistinctNames(files: seq<DirEntry>) {
    forall i, j :: 0 <= i < j < |files| ==> files[i].name != files[j].name
  }

  lemma {:induction false} StatMembers(files: seq<DirEntry>)
    ensures forall e :: e in Stat(files) <==> DirEntry(e.name, Some(e.modTime)) in files
  {
    if files != [] {
      StatMembers(files[..|files| - 1]);
      assert files == files[..|files| - 1] + [files[|files| - 1]];
    }
  }

  lemma {:induction false} StatDistinct(files: seq<DirEntry>)
    requires DistinctNames(files)
    ensures Distinct(Stat(files))
  {
    if files != [] {
      var p, f := files[..|files| - 1], files[|files| - 1];
      StatDistinct(p);
      StatMembers(p);
      forall i | 0 <= i < |Stat(p)| ensures Stat(p)[i].name != f.name {
        assert Stat(p)[i] in Stat(p);
      }
    }
  }

  lemma {:induction false} DistinctAsMultiset(s: seq<Entry>)
    ensures Distinct(s) <==> forall e :: multiset(s)[e] <= 1
  {
    if s != [] {
      DistinctAsMultiset(s[1..]);
      assert s == [s[0]] + s[1..];
      assert forall e :: multiset(s)[e] == multiset(s[1..])[e] + if e == s[0] then 1 else 0;
      if Distinct(s) {
        assert forall i :: 0 <= i < |s| - 1 ==> s[1..][i] != s[0];
        assert s[0] !in multiset(s[1..]);
      }
      if forall e :: multiset(s)[e] <= 1 {
        assert multiset(s)[s[0]] <= 1;
        assert s[0] !in multiset(s[1..]);
        forall i, j | 0 <= i < j < |s| ensures s[i] != s[j] {
          assert s[j] == s[1..][j - 1] && s[j] in multiset(s[1..]);
          if i > 0 { assert s[i] == s[1..][i - 1]; }
        }
      }
    }
  }

  lemma SortedStat(files: seq<DirEntry>)
    requires DistinctNames(files)
    ensures Sorted(Sort(Stat(files))) && Distinct(Sort(Stat(files)))
  {
    StatDistinct(files);
    SortSorts(Stat(files));
    SortPermutes(Stat(files));
    DistinctAsMultiset(Stat(files));
    DistinctAsMultiset(Sort(Stat(files)));
  }

  /** An entry is stale exactly when it can be statted and at least keep others rank before it. */
  lemma StaleExactly(files: seq<DirEntry>, keep: nat, e: Entry)
    requires DistinctNames(files)
    ensures e in Stale(files, keep) <==>
            DirEntry(e.name, Some(e.modTime)) in files && CountBefore(Stat(files), e) >= keep
  {
    var s := Sort(Stat(files));
    SortedStat(files);
    SortPermutes(Stat(files));
    StatMembers(files);
    assert e in s <==> e in Stat(files) by { assert e in multiset(s) <==> e in multiset(Stat(files)); }
    if e in s {
      var i :| 0 <= i < |s| && s[i] == e;
      PositionIsRank(s, i);
      CountPermutes(s, Stat(files), e);
      assert i >= keep ==> s[keep..][i - keep] == e;
      if e in Stale(files, keep) {
        var j :| 0 <= j < |s[keep..]| && s[keep..][j] == e;
        PositionIsRank(s, keep + j);
      }
    }
  }

  /** The stale entries come in order of rank, from keep on. */
  lemma StaleRank(files: seq<DirEntry>, keep: nat, i: nat)
    requires DistinctNames(files) && i < |Stale(files, keep)|
    ensures CountBefore(Stat(files), Stale(files, keep)[i]) == keep + i
  {
    var s := Sort(Stat(files));
    SortedStat(files);
    SortPermutes(Stat(files));
    assert Stale(files, keep)[i] == s[keep + i];
    PositionIsRank(s, keep + i);
    CountPermutes(s, Stat(files), s[keep + i]);
  }

  /** All but keep of the entries that can be statted are stale, each listed once. */
  lemma StaleSize(files: seq<DirEntry>, keep: nat)
    ensures |Stale(files, keep)| == if |Stat(files)| <= keep then 0 else |Stat(files)| - keep
    ensures DistinctNames(files) ==> Distinct(Stale(files, keep))
  {
    SortPermutes(Stat(files));
    assert |Sort(Stat(files))| == |multiset(Sort(Stat(files)))| == |Stat(files)|;
    if DistinctNames(files) { SortedStat(files); }
  }

  lemma {:induction false} StatConcat(a: seq<DirEntry>, b: seq<DirEntry>)
    ensures Stat(a + b) == Stat(a) + Stat(b)
    decreases |b|
  {
    if b == [] {
      assert a + b == a;
    } else {
      assert (a + b)[..|a + b| - 1] == a + b[..|b| - 1];
      StatConcat(a, b[..|b| - 1]);
    }
  }

  lemma {:induction false} StatPermutes(a: seq<DirEntry>, b: seq<DirEntry>)
    requires multiset(a) == multiset(b)
    ensures multiset(Stat(a)) == multiset(Stat(b))
    decreases |a|
  {
    if a == [] {
      EmptyRearranged(b);
    } else {
      var i := TakeOut(a, b);
      StatPermutes(a[1..], b[..i] + b[i + 1..]);
      assert a == [a[0]] + a[1..];
      StatConcat([a[0]], a[1..]);
      StatConcat(b[..i], b[i + 1..]);
      StatConcat(b[..i], [b[i]] + b[i + 1..]);
      StatConcat([b[i]], b[i + 1..]);
    }
  }

  /** The order in which the directory is read does not matter. */
  lemma StaleOrderIndependent(a: seq<DirEntry>, b: seq<DirEntry>, keep: nat)
    requires multiset(a) == multiset(b)
    ensures Stale(a, keep) == Stale(b, keep)
  {
    StatPermutes(a, b);
    SortPermutes(Stat(a));
    SortPermutes(Stat(b));
    SortSorts(Stat(a));
    SortSorts(Stat(b));
    SortedUnique(Sort(Stat(a)), Sort(Stat(b)));
  }
}
