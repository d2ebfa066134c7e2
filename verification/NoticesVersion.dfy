/** The compiler_builtins version that `render` of ci/gen-third-party-notices.py rewrites, and the whole of `render`. */
module NoticesVersion {
  import opened Options
  import opened Text
  import opened NoticesRender

  const NAME: string := "**compiler_builtins "
  const STARS: string := "**"

  /** The version in `NAME version **`. */
  datatype Version = Version(from: nat, to: nat)

  /** The end of the run of non-space characters at `i`. */
  function RunEnd(space: Space, t: string, i: nat): (e: nat)
    requires i <= |t|
    ensures i <= e <= |t| && (forall k :: i <= k < e ==> !space(t[k])) && (e < |t| ==> space(t[e]))
    decreases |t| - i
  {
    if i < |t| && !space(t[i]) then RunEnd(space, t, i + 1) else i
  }

  /** The last stars that start behind `lo`, and at `k` or before. */
  function LastStars(t: string, lo: nat, k: nat): (r: Option<nat>)
    ensures r.Some? ==> lo < r.value <= k && Has(t, r.value, STARS)
  {
    if k <= lo then None else if Has(t, k, STARS) then Some(k) else LastStars(t, lo, k - 1)
  }

  /** The match of `\*\*compiler_builtins \S+\*\*` at `i`: the version is as long as it can be. */
  function VersionAt(space: Space, t: string, i: nat): (r: Option<Version>)
    ensures r.Some? ==> Has(t, i, NAME) && r.value.from == i + |NAME| < r.value.to && Has(t, r.value.to, STARS)
  {
    if !Has(t, i, NAME) then None
    else
      var lo := i + |NAME|;
      var e := RunEnd(space, t, lo);
      match (if e < 2 then None else LastStars(t, lo, e - 2))
      case None => None
      case Some(j) => Some(Version(lo, j))
  }

  lemma {:induction false} LastStarsIs(t: string, lo: nat, k: nat, j: nat)
    ensures LastStars(t, lo, k) == Some(j) <==> lo < j <= k && Has(t, j, STARS) && forall s: nat :: j < s <= k ==> !Has(t, s, STARS)
    decreases k
  {
    if k > lo && !Has(t, k, STARS) { LastStarsIs(t, lo, k - 1, j); }
  }

  function FirstVersion(space: Space, t: string, i: nat): (r: Option<Version>)
    ensures r.Some? ==> i + |NAME| <= r.value.from < r.value.to && r.value.to + |STARS| <= |t|
    decreases |t| - i
  {
    if i >= |t| then None
    else if VersionAt(space, t, i).Some? then VersionAt(space, t, i)
    else FirstVersion(space, t, i + 1)
  }

  /** `re.subn`, which must find exactly one match. */
  function Sub(space: Space, t: string, version: string): Option<string> {
    match FirstVersion(space, t, 0)
    case None => None
    case Some(v) =>
      if FirstVersion(space, t, v.to + |STARS|).None? then Some(t[..v.from] + version + t[v.to..]) else None
  }

  /** The name at `i`, then a version without space, then stars, with no later stars in the same run. */
  ghost predicate VersionText(space: Space, t: string, i: nat, v: Version) {
    && Has(t, i, "**compiler_builtins ") && v.from == i + 20 && v.from < v.to && Has(t, v.to, "**")
    && (forall k :: v.from <= k < v.to ==> !space(t[k]))
    && forall s: nat :: v.to < s && Has(t, s, "**") ==> exists k :: v.from <= k < s && space(t[k])
  }

  lemma StarsAre(t: string, s: nat)
    ensures Has(t, s, STARS) <==> s + 2 <= |t| && t[s] == '*' && t[s + 1] == '*'
  {
    if s + 2 <= |t| { assert t[s..s + 2] == [t[s], t[s + 1]]; }
  }

  /** Stars that no space separates from `lo` are in its run. */
  lemma InRun(space: Space, t: string, lo: nat, s: nat)
    requires lo <= |t| && !space('*') && lo <= s && Has(t, s, STARS)
    ensures s + 2 <= RunEnd(space, t, lo) <==> forall k :: lo <= k < s ==> !space(t[k])
  {
    StarsAre(t, s);
    hide Has;
    var e := RunEnd(space, t, lo);
    hide RunEnd;
    assert !space(t[s]) && !space(t[s + 1]);
    assert e < |t| ==> space(t[e]);
  }

  lemma UnfoldVersion(space: Space, t: string, i: nat, v: Version)
    requires Has(t, i, NAME)
    ensures i + |NAME| <= |t|
    ensures var e := RunEnd(space, t, i + |NAME|);
      VersionAt(space, t, i) == Some(v) <==>
      v.from == i + |NAME| && v.from < v.to && v.to + 2 <= e && Has(t, v.to, STARS) && forall s: nat :: v.to < s && s + 2 <= e ==> !Has(t, s, STARS)
  {
    var e := RunEnd(space, t, i + |NAME|);
    if e >= 2 { LastStarsIs(t, i + |NAME|, e - 2, v.to); }
    hide RunEnd, LastStars, Has;
  }

  /** The match that is found is the one the text has. */
  lemma VersionMeans(space: Space, t: string, i: nat, v: Version)
    requires !space('*')
    ensures VersionAt(space, t, i) == Some(v) <==> VersionText(space, t, i, v)
  {
    hide RunEnd, LastStars, Has, NAME;
    if Has(t, i, NAME) {
      var lo := i + |NAME|;
      UnfoldVersion(space, t, i, v);
      var e := RunEnd(space, t, lo);
      hide VersionAt;
      forall s: nat | lo <= s && Has(t, s, STARS)
        ensures s + 2 <= |t| && (s + 2 <= e <==> forall k :: lo <= k < s ==> !space(t[k]))
      {
        StarsAre(t, s);
        InRun(space, t, lo, s);
      }
      NameIs(space, t, i, v);
      hide VersionText;
      if v.from == lo { LastVersion(space, t, i, v, e); }
    } else {
      NameIs(space, t, i, v);
    }
  }

  lemma NameIs(space: Space, t: string, i: nat, v: Version)
    ensures VersionText(space, t, i, v) ==> Has(t, i, NAME) && v.from == i + |NAME|
  {
    hide Has;
    assert |NAME| == 20;
  }

  lemma LastVersion(space: Space, t: string, i: nat, v: Version, e: nat)
    requires Has(t, i, NAME) && v.from == i + |NAME|
    requires forall s: nat :: v.from <= s && Has(t, s, STARS) ==> (s + 2 <= e <==> forall k :: v.from <= k < s ==> !space(t[k]))
    ensures VersionText(space, t, i, v) <==>
      v.from < v.to && v.to + 2 <= e && Has(t, v.to, STARS) && forall s: nat :: v.to < s && s + 2 <= e ==> !Has(t, s, STARS)
  {
    hide Has;
    assert |NAME| == 20;
  }

  lemma SubFirst(space: Space, t: string, version: string, v: Version)
    requires FirstVersion(space, t, 0) == Some(v)
    ensures v.from <= v.to <= |t|
    ensures Sub(space, t, version) == if FirstVersion(space, t, v.to + 2).None? then Some(t[..v.from] + version + t[v.to..]) else None
  {
    hide FirstVersion;
  }

  lemma SubAt(space: Space, t: string, version: string, i: nat)
    requires i < |t| && VersionAt(space, t, i).Some? && forall k: nat :: k < i ==> VersionAt(space, t, k).None?
    ensures var v := VersionAt(space, t, i).value;
      v.from <= v.to <= |t| &&
      Sub(space, t, version) == if OnlyVersion(space, t, i) then Some(t[..v.from] + version + t[v.to..]) else None
  {
    hide *;
    FirstVersionIs(space, t, 0, i);
    SubFirst(space, t, version, VersionAt(space, t, i).value);
    OnlyAfter(space, t, i);
  }

  /** The text has one version, at `i`, and `r` has another in its place. */
  ghost predicate OneReplaced(space: Space, t: string, version: string, r: string, i: nat) {
    && i < |t| && VersionAt(space, t, i).Some? && OnlyVersion(space, t, i)
    && r == t[..VersionAt(space, t, i).value.from] + version + t[VersionAt(space, t, i).value.to..]
  }

  /** The substitution is done exactly when the text has one version. */
  lemma SubMeans(space: Space, t: string, version: string, r: string)
    ensures Sub(space, t, version) == Some(r) <==> exists i: nat :: OneReplaced(space, t, version, r, i)
  {
    hide VersionAt, FirstVersion, Sub;
    if FirstVersion(space, t, 0).Some? {
      var i := FirstPlace(space, t, 0);
      SubAt(space, t, version, i);
      forall j: nat | OneReplaced(space, t, version, r, j) ensures j == i { OnlyOne(space, t, i, j); }
      assert OneReplaced(space, t, version, r, i) <==> Sub(space, t, version) == Some(r);
    } else {
      FirstVersionIs(space, t, 0, 0);
      SubNone(space, t, version);
    }
  }

  lemma SubNone(space: Space, t: string, version: string)
    requires FirstVersion(space, t, 0).None?
    ensures Sub(space, t, version).None?
  {
  }

  /** No match begins before the one at `i`, none behind it. */
  ghost predicate OnlyVersion(space: Space, t: string, i: nat)
    requires VersionAt(space, t, i).Some?
  {
    && (forall k: nat :: k < i ==> VersionAt(space, t, k).None?)
    && forall k: nat :: VersionAt(space, t, i).value.to + 2 <= k < |t| ==> VersionAt(space, t, k).None?
  }

  lemma {:induction false} FirstPlace(space: Space, t: string, from: nat) returns (i: nat)
    requires FirstVersion(space, t, from).Some?
    ensures from <= i < |t| && VersionAt(space, t, i) == FirstVersion(space, t, from)
    ensures forall k: nat :: from <= k < i ==> VersionAt(space, t, k).None?
    decreases |t| - from
  {
    hide VersionAt;
    if VersionAt(space, t, from).Some? { i := from; } else { i := FirstPlace(space, t, from + 1); }
  }

  lemma OnlyAfter(space: Space, t: string, i: nat)
    requires i < |t| && VersionAt(space, t, i).Some? && forall k: nat :: k < i ==> VersionAt(space, t, k).None?
    ensures FirstVersion(space, t, VersionAt(space, t, i).value.to + 2).None? <==> OnlyVersion(space, t, i)
  {
    hide *;
    FirstVersionIs(space, t, VersionAt(space, t, i).value.to + 2, 0);
    OnlyIs(space, t, i);
  }

  lemma OnlyIs(space: Space, t: string, i: nat)
    requires VersionAt(space, t, i).Some? && forall k: nat :: k < i ==> VersionAt(space, t, k).None?
    ensures OnlyVersion(space, t, i) <==> forall k: nat :: VersionAt(space, t, i).value.to + 2 <= k < |t| ==> VersionAt(space, t, k).None?
  {
    hide VersionAt;
  }

  lemma OnlyOne(space: Space, t: string, i: nat, j: nat)
    requires VersionAt(space, t, i).Some? && VersionAt(space, t, j).Some? && OnlyVersion(space, t, j)
    requires forall k: nat :: k < i ==> VersionAt(space, t, k).None?
    ensures j == i
  {
    hide VersionAt;
  }

  // ------------------------------------------------------------------ the same version again

  lemma {:induction false} FirstVersionIs(space: Space, t: string, i: nat, s: nat)
    ensures FirstVersion(space, t, i).None? <==> forall k: nat :: i <= k < |t| ==> VersionAt(space, t, k).None?
    ensures i <= s < |t| && VersionAt(space, t, s).Some? && (forall k: nat :: i <= k < s ==> VersionAt(space, t, k).None?)
            ==> FirstVersion(space, t, i) == VersionAt(space, t, s)
    decreases |t| - i
  {
    hide VersionAt;
    if i < |t| && VersionAt(space, t, i).None? { FirstVersionIs(space, t, i + 1, s); }
  }

  lemma {:induction false} FirstVersionAt(space: Space, t: string, i: nat) returns (s: nat)
    requires FirstVersion(space, t, i).Some?
    ensures i <= s < |t| && VersionAt(space, t, s) == FirstVersion(space, t, i)
    ensures forall k: nat :: i <= k < s ==> VersionAt(space, t, k).None?
    decreases |t| - i
  {
    hide VersionAt;
    if VersionAt(space, t, i).Some? { s := i; } else { s := FirstVersionAt(space, t, i + 1); }
  }

  lemma RunEndIs(space: Space, t: string, i: nat, e: nat)
    requires i <= e <= |t| && (forall k :: i <= k < e ==> !space(t[k])) && (e < |t| ==> space(t[e]))
    ensures RunEnd(space, t, i) == e
  {
  }

  lemma CharPrefix(t: string, n: string, m: nat, k: nat)
    requires SamePrefix(t, n, m) && k < m
    ensures k < |t| && k < |n| && t[k] == n[k]
  {
    assert t[..m][k] == n[..m][k];
  }

  lemma CharSuffix(t: string, n: string, a: nat, a': nat, k: nat)
    requires SameSuffix(t, n, a, a') && a <= k < |t|
    ensures k - a + a' < |n| && t[k] == n[k - a + a']
  {
    assert t[a..][k - a] == n[a'..][k - a];
  }

  lemma RunPrefix(space: Space, t: string, n: string, m: nat, lo: nat)
    requires SamePrefix(t, n, m) && lo < m && space(t[m - 1])
    ensures RunEnd(space, t, lo) == RunEnd(space, n, lo) < m
  {
    var e := RunEnd(space, t, lo);
    assert e < m;
    hide SamePrefix;
    forall k | lo <= k <= e ensures k < |n| && t[k] == n[k] { CharPrefix(t, n, m, k); }
    RunEndIs(space, n, lo, e);
  }

  lemma NoName(space: Space, t: string, i: nat)
    requires !Has(t, i, NAME)
    ensures VersionAt(space, t, i) == None
  {
    hide RunEnd, LastStars, NAME, Has;
  }

  lemma VersionCases(space: Space, t: string, i: nat, lo: nat, e: nat)
    requires Has(t, i, NAME) && lo == i + |NAME| && lo <= |t| && e == RunEnd(space, t, lo)
    ensures VersionAt(space, t, i) ==
      if e < 2 || LastStars(t, lo, e - 2).None? then None else Some(Version(lo, LastStars(t, lo, e - 2).value))
  {
    hide RunEnd, LastStars, NAME, STARS, Has;
  }

  /** A match that is tried before a space is tried alike in both texts. */
  lemma VersionPrefix(space: Space, t: string, n: string, m: nat, s: nat)
    requires SamePrefix(t, n, m) && s + |NAME| < m && space(t[m - 1])
    ensures VersionAt(space, t, s) == VersionAt(space, n, s)
  {
    hide *;
    HasPrefix(t, n, m, s, NAME);
    if Has(t, s, NAME) {
      NameFits(t, s);
      NameFits(n, s);
      var lo := s + |NAME|;
      RunPrefix(space, t, n, m, lo);
      var e := RunEnd(space, t, lo);
      VersionCases(space, t, s, lo, e);
      VersionCases(space, n, s, lo, e);
      if e >= 2 { StarsPrefix(t, n, m, lo, e - 2); }
    } else {
      NoName(space, t, s);
      NoName(space, n, s);
    }
  }

  lemma {:induction false} StarsPrefix(t: string, n: string, m: nat, lo: nat, k: nat)
    requires SamePrefix(t, n, m) && k + 2 <= m
    ensures LastStars(t, lo, k) == LastStars(n, lo, k)
  {
    HasPrefix(t, n, m, k, STARS);
    if k > lo && !Has(t, k, STARS) { StarsPrefix(t, n, m, lo, k - 1); }
  }

  lemma {:induction false} StarsSuffix(t: string, n: string, a: nat, a': nat, lo: nat, k: nat)
    requires SameSuffix(t, n, a, a') && a <= lo
    ensures match LastStars(t, lo, k) case None => k < a || LastStars(n, lo - a + a', k - a + a').None?
                                      case Some(j) => j >= a && k >= a && LastStars(n, lo - a + a', k - a + a') == Some(j - a + a')
    decreases k
  {
    if k > lo {
      HasSuffix(t, n, a, a', k, STARS);
      if !Has(t, k, STARS) { StarsSuffix(t, n, a, a', lo, k - 1); }
    }
  }

  lemma RunSuffix(space: Space, t: string, n: string, a: nat, a': nat, i: nat)
    requires SameSuffix(t, n, a, a') && a <= i <= |t|
    ensures RunEnd(space, n, i - a + a') == RunEnd(space, t, i) - a + a'
  {
    var e := RunEnd(space, t, i);
    forall k | i <= k < |t| ensures t[k] == n[k - a + a'] { CharSuffix(t, n, a, a', k); }
    forall k | i - a + a' <= k < e - a + a' ensures !space(n[k]) { assert !space(t[k - a' + a]); }
    RunEndIs(space, n, i - a + a', e - a + a');
  }

  /** No version at `i`: no name, or no stars far enough behind it in the run. */
  lemma NoVersionAt(space: Space, t: string, i: nat)
    ensures VersionAt(space, t, i).None? <==>
      (!Has(t, i, NAME) || (var lo := i + |NAME|; var e := RunEnd(space, t, lo); e - 2 <= lo || LastStars(t, lo, e - 2).None?))
  {
    hide Has, RunEnd;
  }

  /** Matches in a common suffix move with it. */
  lemma VersionSuffix(space: Space, t: string, n: string, a: nat, a': nat, s: nat, s': nat)
    requires SameSuffix(t, n, a, a') && a <= s && s' == s - a + a'
    ensures VersionAt(space, t, s).None? <==> VersionAt(space, n, s').None?
  {
    hide *;
    NoVersionAt(space, t, s);
    NoVersionAt(space, n, s');
    HasSuffix(t, n, a, a', s, NAME);
    var lo, lo' := s + |NAME|, s' + |NAME|;
    if Has(t, s, NAME) {
      NameFits(t, s);
      NameFits(n, s');
      RunSuffix(space, t, n, a, a', lo);
      var e, e' := RunEnd(space, t, lo), RunEnd(space, n, lo');
      assert lo - a + a' == lo' && e - a + a' == e';
      if e - 2 > lo {
        StarsSuffix(t, n, a, a', lo, e - 2);
        assert e - 2 - a + a' == e' - 2;
      }
    }
  }

  lemma NameFits(t: string, s: nat)
    requires Has(t, s, NAME)
    ensures s + |NAME| <= |t|
  {
  }

  /** A version that can be written: not empty, and no space in it. */
  ghost predicate Writable(space: Space, version: string) {
    version != "" && forall k :: 0 <= k < |version| ==> !space(version[k])
  }

  /** `n` is `t` with the version at `v` replaced. */
  ghost predicate Replaced(t: string, n: string, v: Version, version: string) {
    && v.from <= v.to <= |t| && n == t[..v.from] + version + t[v.to..]
    && SamePrefix(t, n, v.from) && SameSuffix(t, n, v.to, v.from + |version|) && n[v.from..v.from + |version|] == version
  }

  lemma ReplacedIs(t: string, v: Version, version: string)
    requires v.from <= v.to <= |t|
    ensures Replaced(t, t[..v.from] + version + t[v.to..], v, version)
  {
    var a, b := t[..v.from], t[v.to..];
    assert (a + version + b)[..|a|] == a && (a + version + b)[|a| + |version|..] == b;
    assert (a + version + b)[|a|..|a| + |version|] == version;
  }

  lemma ReplacedParts(t: string, n: string, v: Version, version: string)
    requires Replaced(t, n, v, version)
    ensures var to' := v.from + |version|;
      v.from <= v.to <= |t| && SamePrefix(t, n, v.from) && SameSuffix(t, n, v.to, to') && to' <= |n| && n[v.from..to'] == version
    ensures n == t[..v.from] + version + t[v.to..] && |n| - |t| == |version| - (v.to - v.from)
  {
  }

  /** Sub's one match, and the text it gives. */
  lemma SubMatch(space: Space, t: string, version: string) returns (i: nat, v: Version)
    requires Sub(space, t, version).Some?
    ensures VersionAt(space, t, i) == Some(v) == FirstVersion(space, t, 0) && FirstVersion(space, t, v.to + |STARS|).None?
    ensures v.from == i + |NAME| < v.to && v.to + |STARS| <= |t| && Has(t, i, NAME) && Has(t, v.to, STARS)
    ensures forall k: nat :: k < i ==> VersionAt(space, t, k).None?
    ensures Replaced(t, Sub(space, t, version).value, v, version)
  {
    hide VersionAt, FirstVersion, Replaced, NAME, STARS;
    v := FirstVersion(space, t, 0).value;
    i := FirstVersionAt(space, t, 0);
    VersionFits(space, t, i, v);
    ReplacedIs(t, v, version);
  }

  lemma VersionFits(space: Space, t: string, i: nat, v: Version)
    requires VersionAt(space, t, i) == Some(v)
    ensures v.from == i + |NAME| < v.to && v.to + |STARS| <= |t| && Has(t, i, NAME) && Has(t, v.to, STARS)
    ensures var e := RunEnd(space, t, v.from); v.to <= e - 2 && LastStars(t, v.from, e - 2) == Some(v.to)
  {
    hide RunEnd, LastStars, NAME, STARS, Has;
    HasFits(t, i, NAME);
    HasFits(t, v.to, STARS);
  }

  lemma HasFits(t: string, i: nat, pat: string)
    requires Has(t, i, pat)
    ensures i + |pat| <= |t|
  {
  }

  /** Behind the new version, the run goes on as it did. */
  lemma RunReplaced(space: Space, t: string, n: string, v: Version, version: string, e: nat)
    requires Replaced(t, n, v, version) && Writable(space, version)
    requires v.from <= v.to <= e && e == RunEnd(space, t, v.from)
    ensures RunEnd(space, n, v.from) == e - v.to + v.from + |version|
  {
    hide *;
    ReplacedParts(t, n, v, version);
    var to' := v.from + |version|;
    var e' := e - v.to + to';
    RunEndIs(space, t, v.to, e);
    RunSuffix(space, t, n, v.to, to', v.to);
    NoSpaceIn(space, n, v.from, to', version);
    RunEndIs(space, n, v.from, e');
  }

  lemma NoSpaceIn(space: Space, n: string, a: nat, b: nat, version: string)
    requires a <= b <= |n| && n[a..b] == version && Writable(space, version)
    ensures forall k :: a <= k < b ==> !space(n[k])
  {
    forall k | a <= k < b ensures !space(n[k]) { assert n[k] == n[a..b][k - a]; }
  }

  lemma StarsAgain(t: string, n: string, a: nat, a': nat, lo: nat, k: nat, k': nat)
    requires SameSuffix(t, n, a, a') && LastStars(t, lo, k) == Some(a) && lo < a' && k' == k - a + a'
    ensures LastStars(n, lo, k') == Some(a')
  {
    hide *;
    LastStarsIs(t, lo, k, a);
    LastStarsIs(n, lo, k', a');
    HasSuffix(t, n, a, a', a, STARS);
    forall s: nat | a' < s <= k' ensures !Has(n, s, STARS) { HasSuffix(t, n, a, a', s - a' + a, STARS); }
  }

  lemma NotEmpty(space: Space, version: string)
    requires Writable(space, version)
    ensures |version| > 0
  {
  }

  lemma VersionAtIs(space: Space, n: string, i: nat, lo: nat, j: nat, k: nat)
    requires Has(n, i, NAME) && lo == i + |NAME| && lo <= |n| && RunEnd(space, n, lo) == k + 2
    requires LastStars(n, lo, k) == Some(j)
    ensures VersionAt(space, n, i) == Some(Version(lo, j))
  {
    hide Has, RunEnd, LastStars, NAME, STARS;
  }

  /** The new version is matched where the old one was. */
  lemma MatchedAgain(space: Space, t: string, n: string, i: nat, v: Version, version: string)
    requires VersionAt(space, t, i) == Some(v) && Replaced(t, n, v, version) && Writable(space, version)
    ensures VersionAt(space, n, i) == Some(Version(v.from, v.from + |version|))
  {
    hide *;
    NotEmpty(space, version);
    var lo, to' := v.from, v.from + |version|;
    VersionFits(space, t, i, v);
    ReplacedParts(t, n, v, version);
    var e := RunEnd(space, t, lo);
    RunReplaced(space, t, n, v, version, e);
    HasPrefix(t, n, lo, i, NAME);
    var k, k' := e - 2, e - v.to + to' - 2;
    StarsAgain(t, n, v.to, to', lo, k, k');
    VersionAtIs(space, n, i, lo, to', k');
  }

  /** Writing the same version again changes nothing. */
  lemma SubAgain(space: Space, t: string, version: string)
    requires space(' ') && Writable(space, version) && Sub(space, t, version).Some?
    ensures Sub(space, Sub(space, t, version).value, version) == Sub(space, t, version)
  {
    hide *;
    var n := Sub(space, t, version).value;
    var i, v := SubMatch(space, t, version);
    var lo, to' := v.from, v.from + |version|;
    ReplacedParts(t, n, v, version);
    MatchedAgain(space, t, n, i, v, version);
    NameEnds(t, i);
    NoneBefore(space, t, n, i, lo);
    FirstVersionIs(space, n, 0, i);
    NoneAfter(space, t, n, v.to, to');
    NameFits(n, i);
    VersionFits(space, n, i, Version(lo, to'));
    SubIs(space, n, version, lo, to');
    SameText(t, n, v, version);
  }

  lemma NameEnds(t: string, i: nat)
    requires Has(t, i, NAME)
    ensures 1 <= i + |NAME| <= |t| && t[i + |NAME| - 1] == ' '
  {
    HasChar(t, i, NAME, i + |NAME| - 1);
  }

  lemma NoneBefore(space: Space, t: string, n: string, i: nat, lo: nat)
    requires SamePrefix(t, n, lo) && lo == i + |NAME| && 1 <= lo <= |t| && space(t[lo - 1])
    requires forall k: nat :: k < i ==> VersionAt(space, t, k).None?
    ensures forall k: nat :: k < i ==> VersionAt(space, n, k).None?
  {
    hide VersionAt, SamePrefix;
    forall k: nat | k < i ensures VersionAt(space, n, k).None? { VersionPrefix(space, t, n, lo, k); }
  }

  lemma NoneAfter(space: Space, t: string, n: string, a: nat, a': nat)
    requires SameSuffix(t, n, a, a') && FirstVersion(space, t, a + |STARS|).None?
    ensures FirstVersion(space, n, a' + |STARS|).None?
  {
    var j, j' := a + |STARS|, a' + |STARS|;
    hide VersionAt, FirstVersion;
    FirstVersionIs(space, t, j, 0);
    FirstVersionIs(space, n, j', 0);
    forall k: nat | j' <= k < |n| ensures VersionAt(space, n, k).None? {
      VersionSuffix(space, t, n, a, a', k - a' + a, k);
    }
  }

  lemma SubIs(space: Space, n: string, version: string, lo: nat, to': nat)
    requires FirstVersion(space, n, 0) == Some(Version(lo, to')) && FirstVersion(space, n, to' + |STARS|).None?
    ensures lo <= to' <= |n| && Sub(space, n, version) == Some(n[..lo] + version + n[to'..])
  {
    hide FirstVersion, NAME, STARS;
  }

  lemma SameText(t: string, n: string, v: Version, version: string)
    requires Replaced(t, n, v, version)
    ensures v.from + |version| <= |n| && n[..v.from] + version + n[v.from + |version|..] == n
  {
    assert n[..v.from] == t[..v.from] && n[v.from + |version|..] == t[v.to..];
  }

  // ------------------------------------------------------------------ render

  /** No begin marker matches across the new version: it has no star, and the version no newline. */
  lemma VersionDoesNotCross(space: Space, n: string, lo: nat, hi: nat, b: string)
    requires space('\n') && lo <= hi < |n| && n[hi] == '*' && OneLine(b) && forall k :: lo <= k < hi ==> !space(n[k])
    ensures NoCross(n, lo, hi, b + "\n")
  {
    var pat := b + "\n";
    forall s: nat | Has(n, s, pat) ensures s + |pat| <= lo || s >= hi {
      HasChar(n, s, pat, s + |b|);
      assert n[s + |b|] == '\n';
      NotInHead(n, s, b, hi, '*');
    }
  }

  lemma VersionCross(space: Space, t: string, n: string, v: Version, version: string, h: Group)
    requires space('\n') && Writable(space, version) && Replaced(t, n, v, version) && Has(t, v.to, STARS) && OneLine(h.begin)
    ensures NoCross(n, v.from, v.from + |version|, Head(h))
  {
    var to' := v.from + |version|;
    HasChar(t, v.to, STARS, v.to);
    CharSuffix(t, n, v.to, to', v.to);
    NoSpaceIn(space, n, v.from, to', version);
    VersionDoesNotCross(space, n, v.from, to', h.begin);
  }

  /** A region outside the version keeps its text. */
  lemma RegionKept(space: Space, t: string, n: string, v: Version, version: string, h: Group, p: nat, q: nat)
    requires space('\n') && Writable(space, version) && Replaced(t, n, v, version) && Has(t, v.to, STARS) && OneLine(h.begin)
    requires Settled(t, h) && Region(t, h) == Some((p, q)) && (q <= v.from || v.to <= p)
    ensures Settled(n, h)
  {
    hide *;
    SettledText(t, h, p, q);
    RegionFits(t, h, p, q);
    ReplacedParts(t, n, v, version);
    if q <= v.from {
      KeepBefore(t, n, v.from, h, p, q);
      SlicePrefix(t, n, v.from, p, q);
      RegionFits(n, h, p, q);
      SettledIs(n, h, p, q);
    } else {
      VersionCross(space, t, n, v, version, h);
      var to' := v.from + |version|;
      KeepAfter(t, n, v.from, v.to, to', h, p, q);
      SliceSuffix(t, n, v.to, to', p, q);
      SettledIs(n, h, p - v.to + to', q - v.to + to');
    }
  }

  lemma SettledText(t: string, h: Group, p: nat, q: nat)
    requires Settled(t, h) && Region(t, h) == Some((p, q))
    ensures p <= q <= |t| && t[p..q] == Body(h)
  {
  }

  function RenderAll(space: Space, t: string, groups: seq<Group>, version: string): Option<string> {
    match RenderFrom(t, groups, 0) case None => None case Some(m) => Sub(space, m, version)
  }

  // ------------------------------------------------------------------ a version inside a region

  /** Where `NAME` matches there is no newline, and it begins with a star. */
  lemma NameChars(t: string, i: nat)
    requires Has(t, i, NAME)
    ensures i + |NAME| <= |t| && t[i] == '*' && forall k :: i <= k < i + |NAME| ==> t[k] != '\n'
  {
    forall k | i <= k < i + |NAME| ensures k < |t| && t[k] == NAME[k - i] { HasChar(t, i, NAME, k); }
    assert forall k :: 0 <= k < |NAME| ==> NAME[k] != '\n';
    assert NAME[0] == '*';
  }

  /** Between the name and the stars no character is a space. */
  lemma VersionChars(space: Space, t: string, i: nat, v: Version)
    requires VersionAt(space, t, i) == Some(v)
    ensures v.from < v.to < |t| && t[v.to] == '*' && forall k :: v.from <= k < v.to ==> !space(t[k])
  {
    VersionFits(space, t, i, v);
    HasChar(t, v.to, STARS, v.to);
    var e := RunEnd(space, t, v.from);
    hide VersionAt, LastStars, Has, NAME, STARS;
    assert forall k :: v.from <= k < e ==> !space(t[k]);
  }

  lemma HeadChars(h: Group)
    requires OneLine(h.begin) && OneLine(h.end)
    ensures Head(h) != [] && Head(h)[|Head(h)| - 1] == '\n' && Tail(h) != [] && Tail(h)[0] == '\n'
    ensures (forall k :: 0 <= k < |Head(h)| ==> Head(h)[k] != '*') && forall k :: 0 <= k < |Tail(h)| ==> Tail(h)[k] != '*'
  {
    MarkerEnds(h);
    assert forall k :: 0 <= k < |h.begin| ==> h.begin[k] in h.begin;
    assert forall k :: 0 <= k < |h.end| ==> h.end[k] in h.end;
  }

  /** Head, middle and tail of a settled region, as characters of the text. */
  lemma RegionChars(t: string, h: Group, p: nat, q: nat)
    requires Region(t, h) == Some((p, q)) && OneLine(h.begin) && OneLine(h.end)
    ensures var lo, hi := p + |Head(h)|, q - |Tail(h)|;
      && p < lo <= hi < q <= |t| && t[lo - 1] == '\n' && t[hi] == '\n'
      && (forall k :: p <= k < lo ==> t[k] != '*') && forall k :: hi <= k < q ==> t[k] != '*'
  {
    hide *;
    RegionIs(t, h, p, q);
    RegionFits(t, h, p, q);
    HeadChars(h);
    var head, tail, lo, hi := Head(h), Tail(h), p + |Head(h)|, q - |Tail(h)|;
    FindFirst(t, head, 0, p);
    FindFirst(t, tail, lo, hi);
    forall k | p <= k < lo ensures t[k] == head[k - p] { HasChar(t, p, head, k); }
    forall k | hi <= k < q ensures t[k] == tail[k - hi] { HasChar(t, hi, tail, k); }
  }

  /** A version that overlaps a region lies, with its name, strictly inside the middle. */
  lemma Swallowed(space: Space, t: string, i: nat, v: Version, h: Group, p: nat, q: nat)
    requires space('\n') && VersionAt(space, t, i) == Some(v) && Region(t, h) == Some((p, q)) && OneLine(h.begin) && OneLine(h.end)
    requires v.from < q && p < v.to
    ensures var lo, hi := p + |Head(h)|, q - |Tail(h)|; lo <= i < v.from < v.to < hi <= q && v.from == i + |NAME|
  {
    VersionFits(space, t, i, v);
    NameChars(t, i);
    VersionChars(space, t, i, v);
    RegionChars(t, h, p, q);
    var lo, hi := p + |Head(h)|, q - |Tail(h)|;
    hide VersionAt, Region, Has, Head, Tail, LastStars, RunEnd, STARS;
    assert forall k :: i <= k <= v.to ==> t[k] != '\n';
    assert !(i <= lo - 1 <= v.to) && !(i <= hi <= v.to);
    assert i < v.from by { assert |NAME| > 0; }
    assert !(p <= v.to < lo) && !(hi <= i < q);
  }

  /** No tail covers the name, so none is matched across the version. */
  lemma TailDoesNotCross(n: string, i: nat, lo: nat, hi: nat, e: string, s: nat)
    requires i < lo <= hi <= |n| && n[i] == '*' && (forall k :: i <= k < hi ==> n[k] != '\n') && '\n' !in e && '*' !in e
    requires Has(n, s, "\n" + e)
    ensures s + 1 + |e| <= lo || s >= hi
  {
    HasChar(n, s, "\n" + e, s);
    NotInTail(n, s, e, i, '*');
  }

  /** Then the region is found again at its start, and ends where its tail has moved to. */
  lemma FoundAround(space: Space, t: string, n: string, i: nat, v: Version, version: string, h: Group, p: nat, q: nat)
    requires space('\n') && Writable(space, version) && Replaced(t, n, v, version) && VersionAt(space, t, i) == Some(v)
    requires Region(t, h) == Some((p, q)) && OneLine(h.begin) && OneLine(h.end) && v.from < q && p < v.to
    ensures p <= v.from && v.to <= q && Region(n, h) == Some((p, q - v.to + v.from + |version|))
  {
    hide *;
    Swallowed(space, t, i, v, h, p, q);
    VersionFits(space, t, i, v);
    ReplacedParts(t, n, v, version);
    var lo, hi, from, to' := p + |Head(h)|, q - |Tail(h)|, v.from, v.from + |version|;
    var q' := q - v.to + to';
    RegionIs(t, h, p, q);
    RegionIs(n, h, p, q');
    Markers(h);
    FindFirst(t, Head(h), 0, p);
    FindFirst(n, Head(h), 0, p);
    FindFirst(t, Tail(h), lo, hi);
    FindFirst(n, Tail(h), lo, hi - v.to + to');
    forall s: nat | s <= p ensures Has(n, s, Head(h)) <==> Has(t, s, Head(h)) { HasPrefix(t, n, from, s, Head(h)); }
    HasSuffix(t, n, v.to, to', hi, Tail(h));
    NameAndVersion(space, t, n, i, v, version);
    forall s: nat | lo <= s < hi - v.to + to' ensures !Has(n, s, Tail(h)) {
      if Has(n, s, Tail(h)) {
        TailParts(h);
        TailDoesNotCross(n, i, from, to', h.end, s);
        if s >= to' {
          HasSuffix(t, n, v.to, to', s - to' + v.to, Tail(h));
        } else {
          HasPrefix(t, n, from, s, Tail(h));
        }
      }
    }
  }

  lemma TailParts(h: Group)
    ensures Tail(h) == "\n" + h.end && (OneLine(h.end) ==> '\n' !in h.end && '*' !in h.end)
  {
  }

  /** From the name's star to the end of the new version there is no newline. */
  lemma NameAndVersion(space: Space, t: string, n: string, i: nat, v: Version, version: string)
    requires space('\n') && Writable(space, version) && Replaced(t, n, v, version) && Has(t, i, NAME) && v.from == i + |NAME|
    ensures i < v.from <= v.from + |version| <= |n| && n[i] == '*' && forall k :: i <= k < v.from + |version| ==> n[k] != '\n'
  {
    NameChars(t, i);
    assert |NAME| > 0;
    hide *;
    ReplacedParts(t, n, v, version);
    NoSpaceIn(space, n, v.from, v.from + |version|, version);
    forall k | i <= k < v.from ensures k < |n| && k < |t| && n[k] == t[k] { CharPrefix(t, n, v.from, k); }
  }

  lemma ReplacedSides(t: string, n: string, v: Version, version: string)
    requires Replaced(t, n, v, version)
    ensures SamePrefix(t, n, v.from) && SameSuffix(t, n, v.to, v.from + |version|)
  {
  }

  lemma SameSides(t: string, n: string, from: nat, to: nat, to': nat, p: nat, q: nat, q': nat)
    requires SamePrefix(t, n, from) && p <= from && SameSuffix(t, n, to, to') && to <= q <= |t| && q' == q - to + to'
    ensures p <= |n| && q' <= |n| && p <= |t| && n[..p] == t[..p] && n[q'..] == t[q..]
  {
    assert t[..p] == t[..from][..p] && n[..p] == n[..from][..p];
    var k := q - to;
    assert t[q..] == t[to..][k..] && n[k + to'..] == n[to'..][k..];
  }

  lemma SameRewriting(t: string, n: string, h: Group, p: nat, q: nat, q': nat, from: nat, to: nat, to': nat)
    requires Region(t, h) == Some((p, q)) && Region(n, h) == Some((p, q')) && q' == q - to + to'
    requires SamePrefix(t, n, from) && p <= from && SameSuffix(t, n, to, to') && to <= q
    ensures RenderOne(n, h) == RenderOne(t, h)
  {
    hide *;
    RenderOneIs(t, h, p, q);
    RenderOneIs(n, h, p, q');
    SameSides(t, n, from, to, to', p, q, q');
  }

  /** So rewriting that region in the new text gives the old one back. */
  lemma RegionUndone(space: Space, t: string, n: string, i: nat, v: Version, version: string, h: Group, p: nat, q: nat)
    requires space('\n') && Writable(space, version) && Replaced(t, n, v, version) && VersionAt(space, t, i) == Some(v)
    requires Settled(t, h) && Region(t, h) == Some((p, q)) && OneLine(h.begin) && OneLine(h.end) && v.from < q && p < v.to
    ensures RenderOne(n, h) == Some(t)
  {
    hide *;
    SettledStays(t, h);
    var to' := v.from + |version|;
    FoundAround(space, t, n, i, v, version, h, p, q);
    ReplacedSides(t, n, v, version);
    SameRewriting(t, n, h, p, q, q - v.to + to', v.from, v.to, to');
  }

  /** Rewriting any region of the new text leaves it alone or gives the old text back. */
  lemma OneOfBoth(space: Space, t: string, n: string, i: nat, v: Version, version: string, h: Group)
    requires space('\n') && Writable(space, version) && Replaced(t, n, v, version) && VersionAt(space, t, i) == Some(v)
    requires Settled(t, h) && OneLine(h.begin) && OneLine(h.end)
    ensures RenderOne(n, h) == Some(n) || RenderOne(n, h) == Some(t)
  {
    var (p, q) := Region(t, h).value;
    hide *;
    VersionFits(space, t, i, v);
    if q <= v.from || v.to <= p {
      RegionKept(space, t, n, v, version, h, p, q);
      SettledStays(n, h);
    } else {
      RegionUndone(space, t, n, i, v, version, h, p, q);
    }
  }

  lemma {:induction false} RenderedOneOfBoth(space: Space, t: string, n: string, i: nat, v: Version, version: string,
                                             groups: seq<Group>, j: nat)
    requires space('\n') && Writable(space, version) && Replaced(t, n, v, version) && VersionAt(space, t, i) == Some(v)
    requires Clean(groups) && AllSettled(t, groups, |groups|) && j <= |groups|
    ensures RenderFrom(n, groups, j) == Some(n) || RenderFrom(n, groups, j) == Some(t)
    decreases |groups| - j
  {
    hide *;
    if j == |groups| {
      RenderNone(n, groups);
    } else {
      GroupOf(t, groups, j);
      OneOfBoth(space, t, n, i, v, version, groups[j]);
      if RenderOne(n, groups[j]) == Some(n) {
        RenderUnfold(n, n, groups, j);
        RenderedOneOfBoth(space, t, n, i, v, version, groups, j + 1);
      } else {
        RenderUnfold(n, t, groups, j);
        RenderStays(t, groups, j + 1);
      }
    }
  }

  lemma GroupOf(t: string, groups: seq<Group>, j: nat)
    requires Clean(groups) && AllSettled(t, groups, |groups|) && j < |groups|
    ensures Settled(t, groups[j]) && OneLine(groups[j].begin) && OneLine(groups[j].end)
  {
    assert groups[j] in groups;
  }

  lemma RenderAllIs(space: Space, t: string, groups: seq<Group>, version: string, m: string)
    requires RenderFrom(t, groups, 0) == Some(m)
    ensures RenderAll(space, t, groups, version) == Sub(space, m, version)
  {
    hide RenderFrom, Sub;
  }

  /** Rendering twice is rendering once, when the regions are apart and the tables hold no marker, wherever the version is named. */
  lemma RenderTwice(space: Space, t: string, groups: seq<Group>, version: string)
    requires space(' ') && space('\n') && Writable(space, version) && Regions(t, groups) && Clean(groups)
    requires RenderAll(space, t, groups, version).Some?
    ensures RenderAll(space, RenderAll(space, t, groups, version).value, groups, version) == RenderAll(space, t, groups, version)
  {
    hide *;
    var n := RenderAll(space, t, groups, version).value;
    NoneSettled(t, groups);
    var m := RenderSettles(t, groups, 0);
    RenderAllIs(space, t, groups, version, m);
    var i, v := SubMatch(space, m, version);
    SubAgain(space, m, version);
    RenderedOneOfBoth(space, m, n, i, v, version, groups, 0);
    RenderAllIs(space, n, groups, version, RenderFrom(n, groups, 0).value);
  }

  lemma NoneSettled(t: string, groups: seq<Group>)
    ensures AllSettled(t, groups, 0)
  {
  }

  /** Nothing but the regions and the version is changed. */
  lemma RenderChanges(space: Space, t: string, groups: seq<Group>, version: string) returns (m: string, v: Version)
    requires Regions(t, groups) && Clean(groups) && RenderAll(space, t, groups, version).Some?
    ensures Outline(m, groups) == Outline(t, groups) && AllSettled(m, groups, |groups|)
    ensures FirstVersion(space, m, 0) == Some(v) && v.from <= v.to <= |m|
    ensures RenderAll(space, t, groups, version).value == m[..v.from] + version + m[v.to..]
  {
    hide Regions, Clean, RenderFrom, VersionAt, AllSettled, Outline, FirstVersion;
    NoneSettled(t, groups);
    m := RenderSettles(t, groups, 0);
    OutlineKept(t, groups, 0, m);
    var i;
    i, v := SubMatch(space, m, version);
    ReplacedParts(m, Sub(space, m, version).value, v, version);
  }

  /** `render`; None where it exits because a region or the version is missing, or the version is named more than once. */
  method Render(space: Space, text: string, groups: seq<Group>, version: string) returns (r: Option<string>)
    ensures r == RenderAll(space, text, groups, version)
  {
    var t := text;
    for i := 0 to |groups|
      invariant RenderFrom(text, groups, 0) == RenderFrom(t, groups, i)
    {
      hide RenderOne;
      var next := RenderOne(t, groups[i]);
      if next.None? {
        return None;
      }
      t := next.value;
    }
    r := Sub(space, t, version);
  }
}
