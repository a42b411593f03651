/** The name test a directory under UPGRADE/ must pass: the pattern
    `^<moduleName>-(\d+\.\d+\.\d+)`, anchored at the start only. */
module PackageNames {

  predicate IsDigit(c: char) {
    '0' <= c <= '9'
  }

  /** `s[a..b]` consists of digits. */
  predicate DigitsBetween(s: string, a: nat, b: nat) {
    b <= |s| && forall m :: a <= m < b ==> IsDigit(s[m])
  }

  /** Length of the longest run of digits starting at position `i` of `s`
      (what a greedy `\d+` consumes there). */
  function DigitsFrom(s: string, i: nat): nat
    decreases |s| - i
  {
    if i < |s| && IsDigit(s[i]) then 1 + DigitsFrom(s, i + 1) else 0
  }

  /** The run is all digits and stops at the first non-digit. */
  lemma {:induction false} DigitsFromSpec(s: string, i: nat)
    requires i <= |s|
    ensures DigitsBetween(s, i, i + DigitsFrom(s, i))
    ensures i + DigitsFrom(s, i) < |s| ==> !IsDigit(s[i + DigitsFrom(s, i)])
    decreases |s| - i
  {
    if i < |s| && IsDigit(s[i]) {
      DigitsFromSpec(s, i + 1);
    }
  }

  /** A digit run ending at a non-digit (or at the end) is the greedy run. */
  lemma {:induction false} DigitsFromExact(s: string, i: nat, n: nat)
    requires DigitsBetween(s, i, i + n) && (i + n < |s| ==> !IsDigit(s[i + n]))
    ensures DigitsFrom(s, i) == n
    decreases n
  {
    if n > 0 {
      DigitsFromExact(s, i + 1, n - 1);
    }
  }

  /** Whether `s` begins with three dot-separated groups of digits; whatever follows is ignored. */
  predicate StartsWithRelease(s: string) {
    var a := DigitsFrom(s, 0);
    var b := DigitsFrom(s, a + 1);
    var c := DigitsFrom(s, a + 1 + b + 1);
    && 0 < a && a < |s| && s[a] == '.'
    && 0 < b && a + 1 + b < |s| && s[a + 1 + b] == '.'
    && 0 < c
  }

  /** The match as positions: `s[..i]`, `s[i+1..j]` and `s[j+1..k]` are non-empty
      digit groups and `s[i]`, `s[j]` are dots. */
  ghost predicate ReleaseAt(s: string, i: nat, j: nat, k: nat) {
    && 0 < i && i + 1 < j && j + 1 < k <= |s|
    && DigitsBetween(s, 0, i) && s[i] == '.'
    && DigitsBetween(s, i + 1, j) && s[j] == '.'
    && DigitsBetween(s, j + 1, k)
  }

  /** Some split of `s` matches the three digit groups. */
  ghost predicate HasReleasePrefix(s: string) {
    exists i, j, k :: ReleaseAt(s, i, j, k)
  }

  /** The directory-name filter of the discovery loop. */
  predicate IsPackageName(moduleName: string, name: string) {
    var prefix := moduleName + "-";
    |prefix| <= |name| && name[..|prefix|] == prefix && StartsWithRelease(name[|prefix|..])
  }

  /** A greedy match is a match. */
  lemma GreedyMatches(s: string)
    requires StartsWithRelease(s)
    ensures HasReleasePrefix(s)
  {
    var a := DigitsFrom(s, 0);
    var b := DigitsFrom(s, a + 1);
    var c := DigitsFrom(s, a + 1 + b + 1);
    DigitsFromSpec(s, 0);
    DigitsFromSpec(s, a + 1);
    DigitsFromSpec(s, a + 1 + b + 1);
    assert ReleaseAt(s, a, a + 1 + b, a + 1 + b + 1 + c);
  }

  /** Any match is found by the greedy reading. */
  lemma MatchIsGreedy(s: string, i: nat, j: nat, k: nat)
    requires ReleaseAt(s, i, j, k)
    ensures StartsWithRelease(s)
  {
    DigitsFromExact(s, 0, i);
    DigitsFromExact(s, i + 1, j - i - 1);
    assert IsDigit(s[j + 1]);
  }

  /** The greedy test agrees with the existence of a match: the regex engine's
      backtracking could not find a match the greedy reading misses. */
  lemma StartsWithReleaseIff(s: string)
    ensures StartsWithRelease(s) <==> HasReleasePrefix(s)
  {
    if StartsWithRelease(s) {
      GreedyMatches(s);
    }
    if HasReleasePrefix(s) {
      var i: nat, j: nat, k: nat :| ReleaseAt(s, i, j, k);
      MatchIsGreedy(s, i, j, k);
    }
  }

  /** The filter in full: the module name and a dash at the very start, then a release. */
  lemma PackageNameIff(moduleName: string, name: string)
    ensures IsPackageName(moduleName, name) <==>
      && |moduleName| + 1 <= |name|
      && name[..|moduleName| + 1] == moduleName + "-"
      && HasReleasePrefix(name[|moduleName| + 1..])
  {
    if |moduleName| + 1 <= |name| {
      StartsWithReleaseIff(name[|moduleName| + 1..]);
    }
  }

  /** The pattern has no end anchor: a suffix after the release is accepted. */
  lemma SuffixAccepted()
    ensures IsPackageName("mod", "mod-1.20.3-rc1")
  {
    var s := "mod-1.20.3-rc1"[4..];
    assert s == "1.20.3-rc1";
    MatchIsGreedy(s, 1, 4, 6);
  }

  /** The pattern is anchored at the start: a name with a leading extra character is skipped. */
  lemma PrefixRejected()
    ensures !IsPackageName("mod", "xmod-1.2.3")
  {
    assert "xmod-1.2.3"[..4] != "mod-" by { assert "xmod-1.2.3"[0] == 'x'; }
  }

  /** Two groups are not enough. */
  lemma TwoGroupsRejected()
    ensures !IsPackageName("mod", "mod-1.2")
  {
    var s := "mod-1.2"[4..];
    assert s == "1.2";
    assert DigitsFrom(s, 0) == 1 by { DigitsFromExact(s, 0, 1); }
    assert DigitsFrom(s, 2) == 1 by { DigitsFromExact(s, 2, 1); }
  }
}
