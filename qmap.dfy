/**
 * Qt's QMap<QString, V>: a dictionary whose iteration (keys(), values(),
 * range-for) visits entries in ascending key order. It is modelled as an
 * association list whose keys are strictly increasing, so that the order in
 * which the registry iterates is part of the state, and ToMap gives the
 * plain dictionary view used in specifications.
 */
module QMaps {

  /**
   * Where a character falls in UTF-16 code-unit order. Characters below
   * U+D800 are one unit of their own value; characters above U+FFFF are a
   * surrogate pair whose first unit lies in D800..DBFF; the remaining
   * characters, U+E000..U+FFFF, are one unit above every surrogate.
   */
  function Utf16Rank(c: char): (r: int)
    ensures 0 <= r < 0x11_0000
    ensures c as int < 0xD800 ==> r == c as int
    ensures 0x1_0000 <= c as int ==> 0xD800 <= r < 0x10_E000
    ensures 0xE000 <= c as int < 0x1_0000 ==> 0x10_E000 <= r
  {
    var n := c as int;
    if n < 0xD800 then n
    else if n >= 0x1_0000 then n - 0x1_0000 + 0xD800
    else n + 0x10_0000
  }

  /** The UTF-16 code units of one character. */
  function Units(c: char): (u: seq<int>)
    ensures |u| == 1 || |u| == 2
  {
    var n := c as int;
    if n < 0x1_0000 then [n]
    else [0xD800 + (n - 0x1_0000) / 0x400, 0xDC00 + (n - 0x1_0000) % 0x400]
  }

  /** The UTF-16 code units of a string, as QString stores them. */
  function Encode(s: string): seq<int>
  {
    if s == [] then [] else Units(s[0]) + Encode(s[1..])
  }

  /** Lexicographic order of code-unit sequences: QString's comparison of its storage. */
  predicate UnitsLess(x: seq<int>, y: seq<int>)
    decreases |x|
  {
    if x == [] then y != []
    else y != [] && (x[0] < y[0] || (x[0] == y[0] && UnitsLess(x[1..], y[1..])))
  }

  /** QString's operator<, character by character in UTF-16 order (see Utf16Order). */
  predicate Less(a: string, b: string)
    decreases |a|
  {
    if a == [] then b != []
    else b != [] && (Utf16Rank(a[0]) < Utf16Rank(b[0]) || (a[0] == b[0] && Less(a[1..], b[1..])))
  }

  /** Distinct characters have distinct ranks. */
  lemma RankInjective(c: char, d: char)
    requires c != d
    ensures Utf16Rank(c) != Utf16Rank(d)
  {
    assert c as int != d as int;
  }

  /** A common prefix of code units does not decide the order. */
  lemma {:induction false} UnitsLessPrefix(u: seq<int>, x: seq<int>, y: seq<int>)
    ensures UnitsLess(u + x, u + y) <==> UnitsLess(x, y)
    decreases |u|
  {
    if u != [] {
      assert (u + x)[1..] == u[1..] + x && (u + y)[1..] == u[1..] + y;
      UnitsLessPrefix(u[1..], x, y);
    } else {
      assert u + x == x && u + y == y;
    }
  }

  /** The first differing characters decide the code-unit order, by rank. */
  lemma UnitsLessHead(c: char, d: char, x: seq<int>, y: seq<int>)
    requires c != d
    ensures UnitsLess(Units(c) + x, Units(d) + y) <==> Utf16Rank(c) < Utf16Rank(d)
  {
    var u, v := Units(c) + x, Units(d) + y;
    var n, m := c as int, d as int;
    assert u[0] == Units(c)[0] && v[0] == Units(d)[0];
    if n >= 0x1_0000 && m >= 0x1_0000 && u[0] == v[0] {
      assert u[1..][0] == Units(c)[1] && v[1..][0] == Units(d)[1];
      assert (n - 0x1_0000) / 0x400 == (m - 0x1_0000) / 0x400;
      assert Units(c)[1] != Units(d)[1];
    }
  }

  /** Less is the order QString compares in: lexicographic on UTF-16 code units. */
  lemma {:induction false} Utf16Order(a: string, b: string)
    ensures Less(a, b) <==> UnitsLess(Encode(a), Encode(b))
    decreases |a|
  {
    if a != [] && b != [] {
      if a[0] == b[0] {
        Utf16Order(a[1..], b[1..]);
        UnitsLessPrefix(Units(a[0]), Encode(a[1..]), Encode(b[1..]));
      } else {
        RankInjective(a[0], b[0]);
        UnitsLessHead(a[0], b[0], Encode(a[1..]), Encode(b[1..]));
      }
    } else if a != [] {
      assert Encode(a) != [];
    } else if b != [] {
      assert Encode(b) != [];
    }
  }

  lemma {:induction false} LessIrreflexive(a: string)
    ensures !Less(a, a)
    decreases |a|
  {
    if a != [] {
      LessIrreflexive(a[1..]);
    }
  }

  lemma {:induction false} LessTransitive(a: string, b: string, c: string)
    requires Less(a, b) && Less(b, c)
    ensures Less(a, c)
    decreases |a|
  {
    if a != [] && a[0] == b[0] && b[0] == c[0] {
      LessTransitive(a[1..], b[1..], c[1..]);
    }
  }

  lemma {:induction false} LessTotal(a: string, b: string)
    requires a != b
    ensures Less(a, b) || Less(b, a)
    decreases |a|
  {
    if a != [] && b != [] && a[0] == b[0] {
      assert a == [a[0]] + a[1..] && b == [b[0]] + b[1..];
      LessTotal(a[1..], b[1..]);
    } else if a != [] && b != [] {
      RankInjective(a[0], b[0]);
    }
  }

  type QMap<V> = seq<(string, V)>

  /** The keys are strictly increasing, hence distinct. */
  ghost predicate Sorted<V>(m: QMap<V>) {
    forall i, j :: 0 <= i < j < |m| ==> Less(m[i].0, m[j].0)
  }

  /** Every key of m lies strictly above k. */
  ghost predicate Below<V>(k: string, m: QMap<V>) {
    forall j :: 0 <= j < |m| ==> Less(k, m[j].0)
  }

  /** The keys in iteration order (QMap::keys()). */
  function Keys<V>(m: QMap<V>): (ks: seq<string>)
    ensures |ks| == |m| && forall i :: 0 <= i < |m| ==> ks[i] == m[i].0
  {
    if m == [] then [] else [m[0].0] + Keys(m[1..])
  }

  /** The dictionary the association list stands for; an earlier entry wins. */
  function ToMap<V>(m: QMap<V>): map<string, V>
  {
    if m == [] then map[] else ToMap(m[1..])[m[0].0 := m[0].1]
  }

  /** QMap::contains. */
  function Contains<V>(m: QMap<V>, k: string): bool
  {
    k in ToMap(m)
  }

  /** QMap::insert: replaces the value of an existing key, otherwise adds it in key order. */
  function Insert<V>(m: QMap<V>, k: string, v: V): QMap<V>
  {
    if m == [] then [(k, v)]
    else if m[0].0 == k then [(k, v)] + m[1..]
    else if Less(k, m[0].0) then [(k, v)] + m
    else [m[0]] + Insert(m[1..], k, v)
  }

  /** QMap::remove: drops every entry with key k. */
  function Remove<V>(m: QMap<V>, k: string): QMap<V>
  {
    if m == [] then []
    else if m[0].0 == k then Remove(m[1..], k)
    else [m[0]] + Remove(m[1..], k)
  }

  lemma {:induction false} ToMapKeys<V>(m: QMap<V>)
    ensures forall k :: k in ToMap(m) <==> exists i :: 0 <= i < |m| && m[i].0 == k
  {
    if m != [] {
      ToMapKeys(m[1..]);
      forall k ensures k in ToMap(m) <==> exists i :: 0 <= i < |m| && m[i].0 == k {
        if k in ToMap(m) && k != m[0].0 {
          assert k in ToMap(m[1..]);
          var i :| 0 <= i < |m[1..]| && m[1..][i].0 == k;
          assert m[i + 1].0 == k;
        }
        if k != m[0].0 && exists i :: 0 <= i < |m| && m[i].0 == k {
          var i :| 0 <= i < |m| && m[i].0 == k;
          assert m[1..][i - 1].0 == k;
        }
      }
    }
  }

  lemma SortedCons<V>(x: (string, V), t: QMap<V>)
    requires Sorted(t) && Below(x.0, t)
    ensures Sorted([x] + t)
  {
    var r := [x] + t;
    forall i, j | 0 <= i < j < |r| ensures Less(r[i].0, r[j].0) {
      assert r[j] == t[j - 1];
      if i > 0 {
        assert r[i] == t[i - 1];
      }
    }
  }

  /** Below carries over to any list whose keys are among those of t. */
  lemma BelowByKeys<V>(k: string, t: QMap<V>, u: QMap<V>)
    requires Below(k, t) && ToMap(u).Keys <= ToMap(t).Keys
    ensures Below(k, u)
  {
    ToMapKeys(t);
    ToMapKeys(u);
    forall j | 0 <= j < |u| ensures Less(k, u[j].0) {
      assert u[j].0 in ToMap(u);
      var i :| 0 <= i < |t| && t[i].0 == u[j].0;
    }
  }

  /** In a sorted list each entry is what the dictionary holds for its key. */
  lemma {:induction false} ToMapAt<V>(m: QMap<V>, i: int)
    requires Sorted(m) && 0 <= i < |m|
    ensures m[i].0 in ToMap(m) && ToMap(m)[m[i].0] == m[i].1
  {
    if i > 0 {
      assert m[1..][i - 1] == m[i];
      ToMapAt(m[1..], i - 1);
      assert m[0].0 != m[i].0 by {
        LessIrreflexive(m[0].0);
      }
    }
  }

  lemma {:induction false} InsertToMap<V>(m: QMap<V>, k: string, v: V)
    ensures ToMap(Insert(m, k, v)) == ToMap(m)[k := v]
  {
    if m != [] && m[0].0 != k && !Less(k, m[0].0) {
      InsertToMap(m[1..], k, v);
      assert ([m[0]] + Insert(m[1..], k, v))[1..] == Insert(m[1..], k, v);
    } else if m != [] && m[0].0 == k {
      assert ([(k, v)] + m[1..])[1..] == m[1..];
    } else if m != [] {
      assert ([(k, v)] + m)[1..] == m;
    }
  }

  lemma {:induction false} InsertSorted<V>(m: QMap<V>, k: string, v: V)
    requires Sorted(m)
    ensures Sorted(Insert(m, k, v))
  {
    if m == [] {
    } else if m[0].0 == k {
      var r := Insert(m, k, v);
      forall i, j | 0 <= i < j < |r| ensures Less(r[i].0, r[j].0) {
        assert r[i].0 == m[i].0 && r[j].0 == m[j].0;
      }
    } else if Less(k, m[0].0) {
      forall j | 0 <= j < |m| ensures Less(k, m[j].0) {
        if j > 0 {
          LessTransitive(k, m[0].0, m[j].0);
        }
      }
      SortedCons((k, v), m);
    } else {
      var rest := m[1..];
      assert Sorted(rest);
      InsertSorted(rest, k, v);
      InsertToMap(rest, k, v);
      LessTotal(k, m[0].0);
      var t := Insert(rest, k, v);
      assert Below(m[0].0, t) by {
        ToMapKeys(rest);
        ToMapKeys(t);
        forall j | 0 <= j < |t| ensures Less(m[0].0, t[j].0) {
          assert t[j].0 in ToMap(t);
          if t[j].0 != k {
            var i :| 0 <= i < |rest| && rest[i].0 == t[j].0;
            assert rest[i] == m[i + 1];
          }
        }
      }
      SortedCons(m[0], t);
    }
  }

  lemma {:induction false} RemoveToMap<V>(m: QMap<V>, k: string)
    ensures ToMap(Remove(m, k)) == ToMap(m) - {k}
  {
    if m != [] {
      RemoveToMap(m[1..], k);
      if m[0].0 != k {
        assert ([m[0]] + Remove(m[1..], k))[1..] == Remove(m[1..], k);
      }
    }
  }

  lemma {:induction false} RemoveSorted<V>(m: QMap<V>, k: string)
    requires Sorted(m)
    ensures Sorted(Remove(m, k))
  {
    if m != [] {
      var rest := m[1..];
      assert Sorted(rest);
      RemoveSorted(rest, k);
      if m[0].0 != k {
        RemoveToMap(rest, k);
        assert Below(m[0].0, rest);
        BelowByKeys(m[0].0, rest, Remove(rest, k));
        SortedCons(m[0], Remove(rest, k));
      }
    }
  }

  /** A sorted list holds each key once. */
  lemma SortedDistinct<V>(m: QMap<V>, i: int)
    requires Sorted(m) && 0 <= i < |m|
    ensures forall j :: 0 <= j < |m| && j != i ==> m[j].0 != m[i].0
  {
    LessIrreflexive(m[i].0);
  }

  /** Removing a key that is not there changes nothing. */
  lemma {:induction false} RemoveAbsent<V>(m: QMap<V>, k: string)
    requires !Contains(m, k)
    ensures Remove(m, k) == m
  {
    if m != [] {
      assert k != m[0].0 && !Contains(m[1..], k);
      RemoveAbsent(m[1..], k);
    }
  }

  /** The dictionary's keys are exactly the listed keys. */
  lemma KeysCover<V>(m: QMap<V>)
    ensures forall k :: k in ToMap(m) <==> k in Keys(m)
  {
    ToMapKeys(m);
  }

  /** The keys of a prefix one entry longer, as a left-to-right loop meets them. */
  lemma PrefixNext<V>(m: QMap<V>, j: int)
    requires 0 < j <= |m|
    ensures Keys(m)[..j] == Keys(m)[..j - 1] + [m[j - 1].0]
  {
    var ks := Keys(m);
    assert ks[..j] == ks[..j - 1] + [ks[j - 1]];
  }
}
