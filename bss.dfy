/**
 * The wifi service's BSS object: one access point (a BSSID within an SSID)
 * as seen through the supplicant proxies of every interface that reports it.
 * The proxies are kept in a list, at most one per D-Bus path, and the BSS
 * reports its properties from them.
 */
module Bss {

  /** ushort, as the frequency property is declared. */
  type UShort = x: int | 0 <= x < 0x1_0000

  /** short, as the signal property is declared. */
  type Short = x: int | -0x8000 <= x < 0x8000

  /** What a supplicant BSS proxy reports. */
  datatype Report = Report(
    valid: bool,
    privacy: bool,
    frequency: UShort,
    signal: Short,
    wpaKeyMgmt: seq<string>,
    rsnKeyMgmt: seq<string>)

  /** A supplicant BSS proxy (IBSS): its object path and what it reports. */
  datatype Proxy = Proxy(path: string, report: Report)

  /** The proxies' paths, in list order. */
  function PathsOf(list: seq<Proxy>): (ps: seq<string>)
    ensures |ps| == |list|
    ensures forall i :: 0 <= i < |list| ==> ps[i] == list[i].path
  {
    seq(|list|, i requires 0 <= i < |list| => list[i].path)
  }

  /** No two proxies share a path. */
  ghost predicate Distinct(list: seq<Proxy>)
  {
    forall i, j :: 0 <= i < j < |list| ==> list[i].path != list[j].path
  }

  /** The list after addBSS: unchanged when the path is already there, else the proxy appended. */
  function Added(list: seq<Proxy>, bss: Proxy): seq<Proxy>
  {
    if bss.path in PathsOf(list) then list else list + [bss]
  }

  /** Whether removeBSS(path) keeps a proxy: it must be valid and at another path. */
  predicate Keeps(bss: Proxy, path: string)
  {
    bss.report.valid && bss.path != path
  }

  /** The list after removeBSS(path): the kept proxies, in their order. */
  function Removed(list: seq<Proxy>, path: string): seq<Proxy>
  {
    if list == [] then []
    else
      var last := list[|list| - 1];
      Removed(list[..|list| - 1], path) + (if Keeps(last, path) then [last] else [])
  }

  /** removeBSS keeps exactly the valid proxies at other paths. */
  lemma {:induction false} RemovedMembers(list: seq<Proxy>, path: string)
    ensures forall b :: b in Removed(list, path) <==> b in list && Keeps(b, path)
  {
    if list != [] {
      RemovedMembers(list[..|list| - 1], path);
      assert list == list[..|list| - 1] + [list[|list| - 1]];
    }
  }

  /** b is a subsequence of a: a with some elements deleted and the rest in order. */
  ghost predicate Subsequence(b: seq<Proxy>, a: seq<Proxy>)
    decreases |a|
  {
    if a == [] then b == []
    else
      || (b != [] && b[|b| - 1] == a[|a| - 1] && Subsequence(b[..|b| - 1], a[..|a| - 1]))
      || Subsequence(b, a[..|a| - 1])
  }

  /** removeBSS only deletes: the proxies left keep their relative order. */
  lemma {:induction false} RemovedInOrder(list: seq<Proxy>, path: string)
    ensures Subsequence(Removed(list, path), list)
  {
    if list != [] {
      var init, last := list[..|list| - 1], list[|list| - 1];
      RemovedInOrder(init, path);
      var r := Removed(list, path);
      if Keeps(last, path) {
        assert r == Removed(init, path) + [last];
        assert r[..|r| - 1] == Removed(init, path);
      } else {
        assert r == Removed(init, path);
      }
    }
  }

  /** A list without repeated paths keeps that property through removeBSS. */
  lemma {:induction false} RemovedDistinct(list: seq<Proxy>, path: string)
    requires Distinct(list)
    ensures Distinct(Removed(list, path))
  {
    if list != [] {
      var init, last := list[..|list| - 1], list[|list| - 1];
      assert Distinct(init);
      RemovedDistinct(init, path);
      RemovedMembers(init, path);
      forall b | b in Removed(init, path) ensures b.path != last.path {
        var i :| 0 <= i < |init| && init[i] == b;
        assert list[i] == b;
      }
    }
  }

  /** Removing from one more element of a list. */
  lemma RemovedNext(list: seq<Proxy>, i: int, path: string)
    requires 0 <= i < |list|
    ensures Removed(list[..i + 1], path) == Removed(list[..i], path) + (if Keeps(list[i], path) then [list[i]] else [])
  {
    assert list[..i + 1][..i] == list[..i];
  }

  /** The list removeBSS works on, split at its cursor: the kept prefix, the current proxy, the rest. */
  lemma SplitAt(done: seq<Proxy>, was: seq<Proxy>, i: int)
    requires 0 <= i < |was|
    ensures (done + was[i..])[|done|] == was[i]
    ensures (done + was[i..])[..|done|] + (done + was[i..])[|done| + 1..] == done + was[i + 1..]
    ensures done + was[i..] == (done + [was[i]]) + was[i + 1..]
  {
    assert was[i..] == [was[i]] + was[i + 1..];
  }

  /** addBSS never repeats a path, and afterwards the path is listed. */
  lemma AddedDistinct(list: seq<Proxy>, bss: Proxy)
    requires Distinct(list)
    ensures Distinct(Added(list, bss))
    ensures bss.path in PathsOf(Added(list, bss))
  {
    if bss.path !in PathsOf(list) {
      var r := list + [bss];
      assert PathsOf(r)[|list|] == bss.path;
    }
  }

  /** Adding a proxy and then removing its path leaves what removing the path alone leaves. */
  lemma AddedThenRemoved(list: seq<Proxy>, bss: Proxy)
    ensures Removed(Added(list, bss), bss.path) == Removed(list, bss.path)
  {
    if bss.path !in PathsOf(list) {
      assert (list + [bss])[..|list|] == list;
    }
  }

  class BSS {
    var bsss: seq<Proxy>

    ghost predicate Valid()
      reads this
    {
      Distinct(bsss)
    }

    constructor ()
      ensures Valid() && bsss == []
    {
      bsss := [];
    }

    /** paths(): the proxies' paths, collected in list order. */
    method Paths() returns (result: seq<string>)
      ensures result == PathsOf(bsss)
    {
      result := [];
      for i := 0 to |bsss|
        invariant result == PathsOf(bsss[..i])
      {
        result := result + [bsss[i].path];
      }
      assert bsss[..|bsss|] == bsss;
    }

    /** addBSS(path, interface): a new proxy for the path, created only when the path is not yet listed. */
    method AddBSSAt(path: string, report: Report)
      requires Valid()
      modifies this
      ensures Valid()
      ensures bsss == Added(old(bsss), Proxy(path, report))
    {
      var ps := Paths();
      if path in ps {
        return;
      }
      bsss := bsss + [Proxy(path, report)];
      AddedDistinct(old(bsss), Proxy(path, report));
    }

    /** addBSS(IBSS*): the given proxy, appended only when its path is not yet listed. */
    method AddBSS(bss: Proxy)
      requires Valid()
      modifies this
      ensures Valid()
      ensures bsss == Added(old(bsss), bss)
    {
      var ps := Paths();
      if bss.path in ps {
        return;
      }
      bsss := bsss + [bss];
      AddedDistinct(old(bsss), bss);
    }

    /**
     * removeBSS(path): walks the list with a mutable iterator, deleting each
     * proxy that is invalid or at the given path.
     */
    method RemoveBSS(path: string)
      requires Valid()
      modifies this
      ensures Valid()
      ensures bsss == Removed(old(bsss), path)
    {
      ghost var was := bsss;
      var i, cursor := 0, 0;
      while cursor < |bsss|
        invariant 0 <= i <= |was|
        invariant cursor == |Removed(was[..i], path)| && |bsss| - cursor == |was| - i
        invariant bsss == Removed(was[..i], path) + was[i..]
        decreases |bsss| - cursor
      {
        var bss := bsss[cursor];
        ghost var done := Removed(was[..i], path);
        SplitAt(done, was, i);
        RemovedNext(was, i, path);
        assert bss == was[i];
        if !bss.report.valid || bss.path == path {
          assert !Keeps(was[i], path);
          assert Removed(was[..i + 1], path) == done;
          bsss := bsss[..cursor] + bsss[cursor + 1..];
          assert bsss == done + was[i + 1..];
        } else {
          assert Keeps(was[i], path);
          assert Removed(was[..i + 1], path) == done + [bss];
          cursor := cursor + 1;
          assert bsss == (done + [bss]) + was[i + 1..];
        }
        i := i + 1;
      }
      assert was[..|was|] == was;
      RemovedDistinct(was, path);
    }

    /** privacy(): whether any proxy reports privacy. */
    method Privacy() returns (r: bool)
      ensures r <==> exists i :: 0 <= i < |bsss| && bsss[i].report.privacy
    {
      for i := 0 to |bsss|
        invariant forall j :: 0 <= j < i ==> !bsss[j].report.privacy
      {
        if bsss[i].report.privacy {
          return true;
        }
      }
      return false;
    }

    /** frequency(): the first proxy's, 0 when there is none. */
    method Frequency() returns (r: UShort)
      ensures |bsss| == 0 ==> r == 0
      ensures |bsss| > 0 ==> r == bsss[0].report.frequency
    {
      if |bsss| == 0 {
        return 0;
      }
      return bsss[0].report.frequency;
    }

    /** signal(): the first proxy's, 0 when there is none. */
    method Signal() returns (r: Short)
      ensures |bsss| == 0 ==> r == 0
      ensures |bsss| > 0 ==> r == bsss[0].report.signal
    {
      if |bsss| == 0 {
        return 0;
      }
      return bsss[0].report.signal;
    }

    /** key_mgmt(): the first proxy's WPA key management list, then its RSN one. */
    method KeyMgmt() returns (r: seq<string>)
      ensures |bsss| == 0 ==> r == []
      ensures |bsss| > 0 ==> r == bsss[0].report.wpaKeyMgmt + bsss[0].report.rsnKeyMgmt
    {
      r := [];
      if |bsss| == 0 {
        return;
      }
      var bss := bsss[0];
      r := r + bss.report.wpaKeyMgmt;
      r := r + bss.report.rsnKeyMgmt;
    }
  }
}
