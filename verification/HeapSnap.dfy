/** The order in which heap records are written out. */
module HeapSnap {

  /** A leak record as `qsort` hands it over: its size, and its backtrace of signed
      addresses, which ends at the first zero or at its full length. */
  datatype Record = Record(size: nat, backtrace: seq<int>)

  /** The comparison of two backtraces from index `idx` on. */
  function CompareFrom(b1: seq<int>, b2: seq<int>, idx: nat): (sign: int)
    requires |b1| == |b2| && idx <= |b1|
    decreases |b1| - idx
  {
    if idx == |b1| then 0
    else if b1[idx] < b2[idx] then -1
    else if b1[idx] > b2[idx] then 1
    else if b1[idx] == 0 then 0
    else CompareFrom(b1, b2, idx + 1)
  }

  function Compare(r1: Record, r2: Record): (sign: int)
    requires |r1.backtrace| == |r2.backtrace|
  {
    if r1.size < r2.size then 1
    else if r1.size > r2.size then -1
    else CompareFrom(r1.backtrace, r2.backtrace, 0)
  }

  /** `backtraceSize` is 32 in the source. */
  method CompareHeapRecords(rec1: Record, rec2: Record, backtraceSize: nat) returns (sign: int)
    requires |rec1.backtrace| == |rec2.backtrace| == backtraceSize
    ensures sign == Compare(rec1, rec2)
  {
    if rec1.size < rec2.size {
      return 1;
    } else if rec1.size > rec2.size {
      return -1;
    }
    var bt1, bt2 := rec1.backtrace, rec2.backtrace;
    for idx := 0 to backtraceSize
      invariant CompareFrom(bt1, bt2, 0) == CompareFrom(bt1, bt2, idx)
    {
      var addr1, addr2 := bt1[idx], bt2[idx];
      if addr1 == addr2 {
        if addr1 == 0 {
          break;
        }
        continue;
      }
      if addr1 < addr2 {
        return -1;
      } else if addr1 > addr2 {
        return 1;
      }
    }
    return 0;
  }

  // ---- The order it stands for -----------------------------------------------------

  /** A backtrace up to and with its first zero. */
  function Cut(b: seq<int>): (r: seq<int>) {
    if b == [] then []
    else if b[0] == 0 then [0]
    else [b[0]] + Cut(b[1..])
  }

  lemma {:induction false} CutMeans(b: seq<int>)
    ensures var c := Cut(b);
      && c <= b && (forall i | 0 <= i < |c| - 1 :: c[i] != 0)
      && (c == b || (c != [] && c[|c| - 1] == 0))
  {
    if b == [] || b[0] == 0 {
    } else {
      CutMeans(b[1..]);
      assert b == [b[0]] + b[1..];
    }
  }

  /** Lexicographic order: at the first place where they differ, `a` has the smaller
      address. */
  ghost predicate LexLess(a: seq<int>, b: seq<int>) {
    exists k | 0 <= k < |a| && k < |b| :: a[..k] == b[..k] && a[k] < b[k]
  }

  /** Larger sizes come first, and equal sizes in the order of their backtraces. */
  ghost predicate Before(r1: Record, r2: Record) {
    r1.size > r2.size || (r1.size == r2.size && LexLess(Cut(r1.backtrace), Cut(r2.backtrace)))
  }

  datatype Key = Key(size: nat, cut: seq<int>)

  function KeyOf(r: Record): (k: Key) {
    Key(r.size, Cut(r.backtrace))
  }

  lemma LexLessHeads(a: seq<int>, b: seq<int>)
    requires a != [] && b != []
    ensures LexLess(a, b) <==> a[0] < b[0] || (a[0] == b[0] && LexLess(a[1..], b[1..]))
  {
    if LexLess(a, b) {
      var k :| 0 <= k < |a| && k < |b| && a[..k] == b[..k] && a[k] < b[k];
      if k > 0 {
        assert a[..k][0] == b[..k][0];
        assert a[1..][..k - 1] == a[..k][1..] && b[1..][..k - 1] == b[..k][1..];
        assert a[1..][k - 1] < b[1..][k - 1];
      }
    }
    if a[0] < b[0] {
      assert a[..0] == b[..0];
    } else if a[0] == b[0] && LexLess(a[1..], b[1..]) {
      var k :| 0 <= k < |a[1..]| && k < |b[1..]| && a[1..][..k] == b[1..][..k] && a[1..][k] < b[1..][k];
      assert a[..k + 1] == [a[0]] + a[1..][..k] && b[..k + 1] == [b[0]] + b[1..][..k];
      assert a[k + 1] < b[k + 1];
    }
  }

  lemma {:induction false} CompareIsLex(b1: seq<int>, b2: seq<int>, idx: nat)
    requires |b1| == |b2| && idx <= |b1|
    ensures var s, c1, c2 := CompareFrom(b1, b2, idx), Cut(b1[idx..]), Cut(b2[idx..]);
      && s in {-1, 0, 1}
      && (s == -1 <==> LexLess(c1, c2)) && (s == 1 <==> LexLess(c2, c1)) && (s == 0 <==> c1 == c2)
    decreases |b1| - idx
  {
    if idx == |b1| {
    } else {
      var t1, t2 := b1[idx..], b2[idx..];
      assert t1[1..] == b1[idx + 1..] && t2[1..] == b2[idx + 1..];
      var c1, c2 := Cut(t1), Cut(t2);
      LexLessHeads(c1, c2);
      LexLessHeads(c2, c1);
      if b1[idx] == b2[idx] && b1[idx] != 0 {
        CompareIsLex(b1, b2, idx + 1);
        assert c1[1..] == Cut(t1[1..]) && c2[1..] == Cut(t2[1..]);
      } else if b1[idx] == b2[idx] {
        assert c1[1..] == [] && c2[1..] == [];
      }
    }
  }

  /** For any backtrace length the comparator is descending size, then the lexicographic
      order of the backtraces cut at their first zero; it returns 0 exactly for records
      that agree in both. */
  lemma CompareIsOrder(r1: Record, r2: Record)
    requires |r1.backtrace| == |r2.backtrace|
    ensures var s := Compare(r1, r2);
      && (s < 0 <==> Before(r1, r2)) && (s > 0 <==> Before(r2, r1)) && (s == 0 <==> KeyOf(r1) == KeyOf(r2))
  {
    CompareIsLex(r1.backtrace, r2.backtrace, 0);
    assert r1.backtrace[0..] == r1.backtrace && r2.backtrace[0..] == r2.backtrace;
  }

  lemma {:induction false} LexTransitive(a: seq<int>, b: seq<int>, c: seq<int>)
    requires LexLess(a, b) && LexLess(b, c)
    ensures LexLess(a, c)
    decreases |a|
  {
    var i :| 0 <= i < |a| && i < |b| && a[..i] == b[..i] && a[i] < b[i];
    var j :| 0 <= j < |b| && j < |c| && b[..j] == c[..j] && b[j] < c[j];
    LexLessHeads(a, b);
    LexLessHeads(b, c);
    LexLessHeads(a, c);
    if a[0] == b[0] == c[0] {
      LexTransitive(a[1..], b[1..], c[1..]);
    }
  }

  /** The comparator is a total preorder: its sign flips with its arguments, and it is
      transitive. */
  lemma CompareIsPreorder(a: Record, b: Record, c: Record)
    requires |a.backtrace| == |b.backtrace| == |c.backtrace|
    ensures Compare(b, a) == -Compare(a, b)
    ensures Compare(a, b) <= 0 && Compare(b, c) <= 0 ==> Compare(a, c) <= 0
  {
    CompareIsLex(a.backtrace, b.backtrace, 0);
    CompareIsLex(b.backtrace, a.backtrace, 0);
    CompareIsOrder(a, b);
    CompareIsOrder(b, a);
    CompareIsOrder(b, c);
    CompareIsOrder(a, c);
    if Compare(a, b) < 0 && Compare(b, c) < 0 && a.size == b.size == c.size {
      LexTransitive(Cut(a.backtrace), Cut(b.backtrace), Cut(c.backtrace));
    }
  }

  // ---- What sorting with it yields -------------------------------------------------

  ghost predicate SameLength(s: seq<Record>, n: nat) {
    forall r | r in s :: |r.backtrace| == n
  }

  ghost predicate Sorted(s: seq<Record>, n: nat)
    requires SameLength(s, n)
  {
    forall i, j | 0 <= i < j < |s| :: Compare(s[i], s[j]) <= 0
  }

  function Keys(s: seq<Record>): (r: seq<Key>) {
    seq(|s|, i requires 0 <= i < |s| => KeyOf(s[i]))
  }

  lemma TakeOut<T>(s: seq<T>, i: nat)
    requires i < |s|
    ensures multiset(s) == multiset(s[..i] + s[i + 1..]) + multiset{s[i]}
  {
    assert s == s[..i] + ([s[i]] + s[i + 1..]);
  }

  lemma KeysTakeOut(s: seq<Record>, i: nat)
    requires i < |s|
    ensures multiset(Keys(s)) == multiset(Keys(s[..i] + s[i + 1..])) + multiset{KeyOf(s[i])}
  {
    TakeOut(Keys(s), i);
    assert Keys(s)[..i] + Keys(s)[i + 1..] == Keys(s[..i] + s[i + 1..]);
  }

  lemma WithoutFirst(s: seq<Record>, t: seq<Record>, i: nat)
    requires s != [] && i < |t| && t[i] == s[0] && multiset(s) == multiset(t)
    ensures multiset(s[1..]) == multiset(t[..i] + t[i + 1..])
  {
    var rest := t[..i] + t[i + 1..];
    TakeOut(t, i);
    assert s == [s[0]] + s[1..];
    assert multiset(s) == multiset{s[0]} + multiset(s[1..]);
    assert multiset(s[1..]) == multiset(s) - multiset{s[0]};
    assert multiset(rest) == multiset(t) - multiset{s[0]};
  }

  lemma Somewhere(t: seq<Record>, r: Record) returns (i: nat)
    requires r in multiset(t)
    ensures i < |t| && t[i] == r
  {
    i :| 0 <= i < |t| && t[i] == r;
  }

  /** Records rearranged have their keys rearranged. */
  lemma {:induction false} KeysRearranged(s: seq<Record>, t: seq<Record>)
    requires multiset(s) == multiset(t)
    ensures multiset(Keys(s)) == multiset(Keys(t))
    decreases |s|
  {
    if s == [] {
      assert |multiset(t)| == 0;
    } else {
      assert s[0] in multiset(s);
      var i := Somewhere(t, s[0]);
      WithoutFirst(s, t, i);
      KeysRearranged(s[1..], t[..i] + t[i + 1..]);
      KeysSplit(s);
      KeysTakeOut(t, i);
    }
  }

  /** No record of a sorted sequence compares below the first. */
  lemma FirstIsLeast(s: seq<Record>, k: Key, n: nat) returns (i: nat)
    requires SameLength(s, n) && Sorted(s, n) && k in Keys(s)
    ensures i < |s| && KeyOf(s[i]) == k && Compare(s[0], s[i]) <= 0
  {
    i :| 0 <= i < |s| && Keys(s)[i] == k;
    CompareIsOrder(s[0], s[i]);
  }

  lemma HeadsAgree(s: seq<Record>, t: seq<Record>, n: nat)
    requires SameLength(s, n) && SameLength(t, n) && Sorted(s, n) && Sorted(t, n)
    requires s != [] && t != [] && multiset(Keys(s)) == multiset(Keys(t))
    ensures KeyOf(s[0]) == KeyOf(t[0])
  {
    assert Keys(s)[0] in multiset(Keys(s)) && Keys(t)[0] in multiset(Keys(t));
    var i := FirstIsLeast(t, KeyOf(s[0]), n);
    var j := FirstIsLeast(s, KeyOf(t[0]), n);
    CompareIsOrder(t[i], s[0]);
    CompareIsOrder(s[j], t[0]);
    CompareIsPreorder(t[0], t[i], s[0]);
    CompareIsPreorder(s[0], s[j], t[0]);
    CompareIsPreorder(s[0], t[0], s[0]);
    CompareIsOrder(s[0], t[0]);
  }

  /** Whatever way the records are sorted, the sizes and cut backtraces come out in the
      same order: sorting is well defined up to records that compare equal. */
  lemma {:induction false} SortedOrderIsUnique(s: seq<Record>, t: seq<Record>, n: nat)
    requires SameLength(s, n) && SameLength(t, n) && Sorted(s, n) && Sorted(t, n)
    requires multiset(s) == multiset(t)
    ensures Keys(s) == Keys(t)
  {
    KeysRearranged(s, t);
    SortedKeysUnique(s, t, n);
  }

  lemma KeysSplit(s: seq<Record>)
    requires s != []
    ensures Keys(s) == [KeyOf(s[0])] + Keys(s[1..])
    ensures multiset(Keys(s)) == multiset{KeyOf(s[0])} + multiset(Keys(s[1..]))
  {
    assert Keys(s) == [KeyOf(s[0])] + Keys(s[1..]);
  }

  lemma SortedTail(s: seq<Record>, n: nat)
    requires s != [] && SameLength(s, n) && Sorted(s, n)
    ensures SameLength(s[1..], n) && Sorted(s[1..], n)
  {
    forall i, j | 0 <= i < j < |s[1..]| ensures Compare(s[1..][i], s[1..][j]) <= 0 {
      assert Compare(s[i + 1], s[j + 1]) <= 0;
    }
  }

  lemma {:induction false} SortedKeysUnique(s: seq<Record>, t: seq<Record>, n: nat)
    requires SameLength(s, n) && SameLength(t, n) && Sorted(s, n) && Sorted(t, n)
    requires multiset(Keys(s)) == multiset(Keys(t))
    ensures Keys(s) == Keys(t)
    decreases |s|
  {
    assert |multiset(Keys(s))| == |s| && |multiset(Keys(t))| == |t|;
    if s != [] {
      HeadsAgree(s, t, n);
      KeysSplit(s);
      KeysSplit(t);
      SortedTail(s, n);
      SortedTail(t, n);
      var k := KeyOf(s[0]);
      assert multiset(Keys(s[1..])) == multiset(Keys(s)) - multiset{k} == multiset(Keys(t[1..]));
      SortedKeysUnique(s[1..], t[1..], n);
    }
  }
}
