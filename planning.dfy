/** Which packages an upgrade applies and in what order: discovery filters the
    listing of UPGRADE/, the kept packages are indexed by target release (a
    later one replacing an earlier one with the same target), and the index is
    sorted by target release. */
module Planning {
  import opened Versions
  import opened UpgradeTypes
  import opened PackageNames

  /** What the discovery loop works from: the module's name, its UPGRADE/
      directory, the files on disk, and the installed release read before the loop. */
  datatype Scan = Scan(moduleName: string, upgradesPath: Path, files: set<Path>, current: Version)

  /** A listed directory enters consideration: its name matches and it holds a conf.php. */
  predicate IsDiscovered(scan: Scan, e: DirEntry) {
    IsPackageName(scan.moduleName, e.name) && ConfPath(scan.upgradesPath + e.name) in scan.files
  }

  /** A discovered package is kept when it upgrades from the installed release or a later one. */
  predicate Accepted(scan: Scan, e: DirEntry) {
    IsDiscovered(scan, e) && Compare(e.conf.releaseFrom, scan.current) >= 0
  }

  function PackageOf(scan: Scan, e: DirEntry): Package {
    Package(scan.upgradesPath + e.name, e.conf)
  }

  /** The key a package is indexed and sorted by. */
  function Key(p: Package): Version {
    p.conf.releaseTo
  }

  /** The kept packages, in listing order. */
  function Candidates(scan: Scan, listing: seq<DirEntry>): seq<Package> {
    if listing == [] then []
    else
      var init := Candidates(scan, listing[..|listing| - 1]);
      var e := listing[|listing| - 1];
      if Accepted(scan, e) then init + [PackageOf(scan, e)] else init
  }

  /** The package of the last kept entry of the listing whose target is `k`. */
  function LastAccepted(scan: Scan, listing: seq<DirEntry>, k: Version): Option<Package> {
    if listing == [] then None
    else
      var e := listing[|listing| - 1];
      if Accepted(scan, e) && e.conf.releaseTo == k then Some(PackageOf(scan, e))
      else LastAccepted(scan, listing[..|listing| - 1], k)
  }

  /** The entry stored under `k` in an ordered array keyed by target release. */
  function Lookup(vs: seq<Package>, k: Version): Option<Package> {
    if vs == [] then None
    else if Key(vs[0]) == k then Some(vs[0])
    else Lookup(vs[1..], k)
  }

  /** `$versions[release_to] = package` on PHP's ordered array: an existing key
      keeps its position and takes the new value, a new key goes at the end. */
  function Put(vs: seq<Package>, p: Package): seq<Package> {
    if vs == [] then [p]
    else if Key(vs[0]) == Key(p) then [p] + vs[1..]
    else [vs[0]] + Put(vs[1..], p)
  }

  /** The array the discovery loop builds from the kept packages. */
  function Index(ps: seq<Package>): seq<Package> {
    if ps == [] then [] else Put(Index(ps[..|ps| - 1]), ps[|ps| - 1])
  }

  predicate DistinctKeys(vs: seq<Package>) {
    forall i, j :: 0 <= i < j < |vs| ==> Key(vs[i]) != Key(vs[j])
  }

  /** What the sort guarantees of its result. */
  predicate NonDecreasing(s: seq<Package>) {
    forall k :: 0 < k < |s| ==> Compare(Key(s[k - 1]), Key(s[k])) <= 0
  }

  /** Every step targets a strictly later release than the steps before it. */
  predicate Ascending(s: seq<Package>) {
    forall i, j :: 0 <= i < j < |s| ==> Compare(Key(s[i]), Key(s[j])) < 0
  }

  /** `plan` is `versions` put in ascending order of target release. */
  predicate IsPlan(plan: seq<Package>, versions: seq<Package>) {
    multiset(plan) == multiset(versions) && Ascending(plan)
  }

  /** The last kept entry with target `k`, located in the listing. */
  ghost predicate LastAcceptedAt(scan: Scan, listing: seq<DirEntry>, k: Version, i: nat) {
    && i < |listing|
    && Accepted(scan, listing[i])
    && listing[i].conf.releaseTo == k
    && forall j :: i < j < |listing| && Accepted(scan, listing[j]) ==> listing[j].conf.releaseTo != k
  }

  /** Entry `i` of the listing is kept and yields `p`. */
  ghost predicate KeptAt(scan: Scan, listing: seq<DirEntry>, i: nat, p: Package) {
    i < |listing| && Accepted(scan, listing[i]) && p == PackageOf(scan, listing[i])
  }

  /** A package is a candidate exactly when some listed entry is discovered and kept and yields it. */
  lemma {:induction false} CandidatesIff(scan: Scan, listing: seq<DirEntry>, p: Package)
    ensures p in Candidates(scan, listing) <==> exists i: nat :: KeptAt(scan, listing, i, p)
  {
    if listing != [] {
      var n := |listing| - 1;
      var init := listing[..n];
      CandidatesIff(scan, init, p);
      if p in Candidates(scan, listing) {
        if p in Candidates(scan, init) {
          var i: nat :| KeptAt(scan, init, i, p);
          assert init[i] == listing[i];
          assert KeptAt(scan, listing, i, p);
        } else {
          assert KeptAt(scan, listing, n, p);
        }
      }
      if exists i: nat :: KeptAt(scan, listing, i, p) {
        var i: nat :| KeptAt(scan, listing, i, p);
        if i < n {
          assert init[i] == listing[i];
          assert KeptAt(scan, init, i, p);
        }
      }
    }
  }

  /** Last in listing order wins: what `LastAccepted` returns comes from the last
      kept entry with that target. */
  lemma {:induction false} LastAcceptedSound(scan: Scan, listing: seq<DirEntry>, k: Version, p: Package)
    returns (i: nat)
    requires LastAccepted(scan, listing, k) == Some(p)
    ensures LastAcceptedAt(scan, listing, k, i) && p == PackageOf(scan, listing[i])
  {
    var n := |listing| - 1;
    var e := listing[n];
    if Accepted(scan, e) && e.conf.releaseTo == k {
      i := n;
    } else {
      var init := listing[..n];
      i := LastAcceptedSound(scan, init, k, p);
      assert init[i] == listing[i];
      forall j | i < j < |listing| && Accepted(scan, listing[j])
        ensures listing[j].conf.releaseTo != k
      {
        if j < n {
          assert init[j] == listing[j];
        }
      }
    }
  }

  /** ... and conversely, the last kept entry with a target is what `LastAccepted` returns. */
  lemma {:induction false} LastAcceptedComplete(scan: Scan, listing: seq<DirEntry>, k: Version, i: nat)
    requires LastAcceptedAt(scan, listing, k, i)
    ensures LastAccepted(scan, listing, k) == Some(PackageOf(scan, listing[i]))
  {
    var n := |listing| - 1;
    if i < n {
      var init := listing[..n];
      assert !(Accepted(scan, listing[n]) && listing[n].conf.releaseTo == k);
      assert LastAccepted(scan, listing, k) == LastAccepted(scan, init, k);
      assert init[i] == listing[i];
      forall j | i < j < n && Accepted(scan, init[j])
        ensures init[j].conf.releaseTo != k
      {
        assert init[j] == listing[j];
      }
      LastAcceptedComplete(scan, init, k, i);
    }
  }

  /** Every kept entry's target gets a package. */
  lemma {:induction false} LastAcceptedCovers(scan: Scan, listing: seq<DirEntry>, i: nat)
    requires i < |listing| && Accepted(scan, listing[i])
    ensures LastAccepted(scan, listing, listing[i].conf.releaseTo).Some?
  {
    var n := |listing| - 1;
    if i < n && !(Accepted(scan, listing[n]) && listing[n].conf.releaseTo == listing[i].conf.releaseTo) {
      LastAcceptedCovers(scan, listing[..n], i);
    }
  }

  /** Storing under a key replaces what that key held and changes no other key. */
  lemma {:induction false} PutLookup(vs: seq<Package>, p: Package, k: Version)
    ensures Lookup(Put(vs, p), k) == if k == Key(p) then Some(p) else Lookup(vs, k)
  {
    if vs != [] && Key(vs[0]) != Key(p) {
      PutLookup(vs[1..], p, k);
    }
  }

  /** Storing keeps keys unique and brings in no package but the stored one. */
  lemma {:induction false} PutDistinct(vs: seq<Package>, p: Package)
    requires DistinctKeys(vs)
    ensures DistinctKeys(Put(vs, p))
    ensures forall q :: q in Put(vs, p) ==> q == p || q in vs
  {
    if vs != [] && Key(vs[0]) != Key(p) {
      var rest := vs[1..];
      assert DistinctKeys(rest) by {
        assert forall i :: 0 <= i < |rest| ==> rest[i] == vs[i + 1];
      }
      PutDistinct(rest, p);
      var r := Put(vs, p);
      assert r == [vs[0]] + Put(rest, p);
      forall i, j | 0 <= i < j < |r|
        ensures Key(r[i]) != Key(r[j])
      {
        if i == 0 {
          assert r[j] in Put(rest, p);
          if r[j] != p {
            assert r[j] in rest;
            var m :| 0 <= m < |rest| && rest[m] == r[j];
            assert vs[m + 1] == r[j];
          }
        }
      }
    } else if vs != [] {
      var r := Put(vs, p);
      assert forall i :: 1 <= i < |r| ==> r[i] == vs[i];
    }
  }

  /** With unique keys, membership is exactly lookup under the package's own key. */
  lemma {:induction false} LookupDistinct(vs: seq<Package>, p: Package)
    requires DistinctKeys(vs)
    ensures p in vs <==> Lookup(vs, Key(p)) == Some(p)
  {
    if vs != [] {
      var rest := vs[1..];
      assert DistinctKeys(rest) by {
        assert forall i :: 0 <= i < |rest| ==> rest[i] == vs[i + 1];
      }
      LookupDistinct(rest, p);
    }
  }

  /** The index keeps at most one package per target. */
  lemma {:induction false} IndexDistinct(ps: seq<Package>)
    ensures DistinctKeys(Index(ps))
  {
    if ps != [] {
      IndexDistinct(ps[..|ps| - 1]);
      PutDistinct(Index(ps[..|ps| - 1]), ps[|ps| - 1]);
    }
  }

  /** Under each target the index built from the listing holds the package of the
      last kept entry with that target, and nothing under any other. */
  lemma {:induction false} IndexLookup(scan: Scan, listing: seq<DirEntry>, k: Version)
    ensures Lookup(Index(Candidates(scan, listing)), k) == LastAccepted(scan, listing, k)
  {
    if listing != [] {
      var init := listing[..|listing| - 1];
      var e := listing[|listing| - 1];
      IndexLookup(scan, init, k);
      if Accepted(scan, e) {
        var ps := Candidates(scan, init) + [PackageOf(scan, e)];
        assert ps[..|ps| - 1] == Candidates(scan, init);
        PutLookup(Index(Candidates(scan, init)), PackageOf(scan, e), k);
      }
    }
  }

  /** The index built by the discovery loop: one package per target, and a package
      is in it exactly when it comes from the last kept entry with its target. */
  lemma IndexContents(scan: Scan, listing: seq<DirEntry>)
    ensures DistinctKeys(Index(Candidates(scan, listing)))
    ensures forall p :: p in Index(Candidates(scan, listing)) <==> LastAccepted(scan, listing, Key(p)) == Some(p)
  {
    var vs := Index(Candidates(scan, listing));
    IndexDistinct(Candidates(scan, listing));
    forall p
      ensures p in vs <==> LastAccepted(scan, listing, Key(p)) == Some(p)
    {
      LookupDistinct(vs, p);
      IndexLookup(scan, listing, Key(p));
    }
  }

  /** With unique keys no package occurs twice. */
  lemma {:induction false} DistinctOccursOnce(vs: seq<Package>, x: Package)
    requires DistinctKeys(vs)
    ensures multiset(vs)[x] <= 1
  {
    if vs != [] {
      var rest := vs[1..];
      assert vs == [vs[0]] + rest;
      assert DistinctKeys(rest) by {
        assert forall i :: 0 <= i < |rest| ==> rest[i] == vs[i + 1];
      }
      DistinctOccursOnce(rest, x);
    }
  }

  /** Reordering keeps keys unique. */
  lemma PermutationDistinct(s: seq<Package>, vs: seq<Package>)
    requires multiset(s) == multiset(vs) && DistinctKeys(vs)
    ensures DistinctKeys(s)
  {
    forall i, j | 0 <= i < j < |s|
      ensures Key(s[i]) != Key(s[j])
    {
      if s[i] == s[j] {
        var x := s[i];
        assert s == s[..i] + [x] + s[i + 1..j] + [x] + s[j + 1..];
        assert multiset(s)[x] >= 2;
        DistinctOccursOnce(vs, x);
      } else {
        assert s[i] in multiset(vs) && s[j] in multiset(vs);
        var a :| 0 <= a < |vs| && vs[a] == s[i];
        var b :| 0 <= b < |vs| && vs[b] == s[j];
        if a < b {
          assert Key(vs[a]) != Key(vs[b]);
        } else {
          assert Key(vs[b]) != Key(vs[a]);
        }
      }
    }
  }

  /** Strict order between neighbours extends to every pair. */
  lemma {:induction false} NeighboursAscending(s: seq<Package>)
    requires forall k :: 0 < k < |s| ==> Compare(Key(s[k - 1]), Key(s[k])) < 0
    ensures Ascending(s)
  {
    if |s| > 1 {
      var init := s[..|s| - 1];
      NeighboursAscending(init);
      forall i | 0 <= i < |s| - 1
        ensures Compare(Key(s[i]), Key(s[|s| - 1])) < 0
      {
        assert Compare(Key(init[i]), Key(init[|s| - 2])) < 0 || i == |s| - 2;
        if i < |s| - 2 {
          CompareStrictlyTransitive(Key(s[i]), Key(s[|s| - 2]), Key(s[|s| - 1]));
        }
      }
    }
  }

  /** A non-decreasing reordering of an array with unique keys is a plan. */
  lemma SortedIsPlan(s: seq<Package>, vs: seq<Package>)
    requires multiset(s) == multiset(vs) && DistinctKeys(vs) && NonDecreasing(s)
    ensures IsPlan(s, vs)
  {
    PermutationDistinct(s, vs);
    assert forall k :: 0 < k < |s| ==> Key(s[k - 1]) != Key(s[k]);
    NeighboursAscending(s);
  }

  /** Two ascending orderings of the same packages start with the same one, the oldest target. */
  lemma AscendingSameHead(p1: seq<Package>, p2: seq<Package>)
    requires multiset(p1) == multiset(p2) && Ascending(p1) && Ascending(p2) && p1 != []
    ensures p2 != [] && p1[0] == p2[0]
  {
    var x := p1[0];
    assert x in multiset(p2);
    var y := p2[0];
    assert y in multiset(p1);
    if x != y {
      var j :| 0 <= j < |p2| && p2[j] == x;
      var i :| 0 <= i < |p1| && p1[i] == y;
      assert Compare(Key(y), Key(x)) < 0;
      assert Compare(Key(x), Key(y)) < 0;
      CompareAntisymmetric(Key(x), Key(y));
    }
  }

  /** Dropping the first package keeps a sequence ascending. */
  lemma AscendingTail(s: seq<Package>)
    requires Ascending(s) && s != []
    ensures Ascending(s[1..])
  {
    var t := s[1..];
    forall i, j | 0 <= i < j < |t|
      ensures Compare(Key(t[i]), Key(t[j])) < 0
    {
      assert t[i] == s[i + 1] && t[j] == s[j + 1];
    }
  }

  /** Two permutations with the same first package stay permutations without it. */
  lemma MultisetTails(p1: seq<Package>, p2: seq<Package>)
    requires multiset(p1) == multiset(p2) && p1 != [] && p2 != [] && p1[0] == p2[0]
    ensures multiset(p1[1..]) == multiset(p2[1..])
  {
    assert p1 == [p1[0]] + p1[1..] && p2 == [p2[0]] + p2[1..];
    assert multiset(p1) == multiset{p1[0]} + multiset(p1[1..]);
    assert multiset(p2) == multiset{p1[0]} + multiset(p2[1..]);
    forall z
      ensures multiset(p1[1..])[z] == multiset(p2[1..])[z]
    {
      assert multiset(p1)[z] == multiset{p1[0]}[z] + multiset(p1[1..])[z];
      assert multiset(p2)[z] == multiset{p1[0]}[z] + multiset(p2[1..])[z];
    }
  }

  /** The plan is determined: two ascending orderings of the same packages are equal. */
  lemma {:induction false} PlanUnique(p1: seq<Package>, p2: seq<Package>)
    requires multiset(p1) == multiset(p2) && Ascending(p1) && Ascending(p2)
    ensures p1 == p2
  {
    if p1 == [] {
      assert |multiset(p2)| == 0;
    } else {
      AscendingSameHead(p1, p2);
      MultisetTails(p1, p2);
      AscendingTail(p1);
      AscendingTail(p2);
      PlanUnique(p1[1..], p2[1..]);
      assert p1 == [p1[0]] + p1[1..] && p2 == [p2[0]] + p2[1..];
    }
  }

  /** The plan is exactly the kept, deduplicated packages: each package of the
      last kept entry for its target, and one for every kept target. */
  lemma PlanContents(scan: Scan, listing: seq<DirEntry>, plan: seq<Package>)
    requires IsPlan(plan, Index(Candidates(scan, listing)))
    ensures forall p :: p in plan <==> LastAccepted(scan, listing, Key(p)) == Some(p)
    ensures forall i :: 0 <= i < |listing| && Accepted(scan, listing[i]) ==>
      LastAccepted(scan, listing, listing[i].conf.releaseTo).Some? &&
      LastAccepted(scan, listing, listing[i].conf.releaseTo).value in plan
  {
    var vs := Index(Candidates(scan, listing));
    IndexContents(scan, listing);
    assert forall p :: p in plan <==> p in vs by {
      assert forall p :: p in plan <==> p in multiset(plan);
      assert forall p :: p in vs <==> p in multiset(vs);
    }
    forall i | 0 <= i < |listing| && Accepted(scan, listing[i])
      ensures LastAccepted(scan, listing, listing[i].conf.releaseTo).Some?
      ensures LastAccepted(scan, listing, listing[i].conf.releaseTo).value in plan
    {
      var k := listing[i].conf.releaseTo;
      LastAcceptedCovers(scan, listing, i);
      var p := LastAccepted(scan, listing, k).value;
      var j := LastAcceptedSound(scan, listing, k, p);
    }
  }
}
