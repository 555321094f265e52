/**
 * The tags that mark a snapshot as one of ours (internal/image/markers.go), and the rule for
 * launching or keeping it (internal/image/resolve.go:144-173).
 */
module ImageMarkers {
  import opened Options
  import opened Text

  // ------------------------------------------------------------------- Atoi

  const MAX_INT: int := 0x7fff_ffff_ffff_ffff

  // strconv.Atoi on a 64-bit machine: an optional sign and decimal digits, in range.
  function Atoi(s: string): Option<int> {
    var digits := if s != "" && (s[0] == '-' || s[0] == '+') then s[1..] else s;
    if digits == "" || !AllDigits(digits) then None
    else
      var size: int := NumberOf(digits);
      var n := if s[0] == '-' then -size else size;
      if -MAX_INT - 1 <= n <= MAX_INT then Some(n) else None
  }

  // One of the spellings of n: decimal digits, any leading zeros and a sign of either kind among them.
  predicate Spells(sign: string, digits: string, n: int) {
    && sign in ["", "+", "-"] && digits != "" && AllDigits(digits)
    && n == if sign == "-" then -(NumberOf(digits) as int) else NumberOf(digits)
  }

  // Exactly what is read as which number.
  lemma AtoiExactly(s: string, n: int)
    ensures Atoi(s) == Some(n) <==>
              -0x8000_0000_0000_0000 <= n <= 0x7fff_ffff_ffff_ffff
              && exists sign, digits :: s == sign + digits && Spells(sign, digits, n)
  {
    hide NumberOf;
    if Atoi(s) == Some(n) {
      var signed := s[0] == '-' || s[0] == '+';
      var sign, digits := if signed then s[..1] else "", if signed then s[1..] else s;
      assert s[..1] == [s[0]];
      assert s == sign + digits && Spells(sign, digits, n);
    }
    forall sign, digits | s == sign + digits && Spells(sign, digits, n) && -MAX_INT - 1 <= n <= MAX_INT
      ensures Atoi(s) == Some(n)
    {
      assert IsDigit(digits[0]);
      assert sign != "" ==> s[1..] == digits;
      assert sign == "" ==> s == digits;
    }
  }

  // ------------------------------------------------------------------ markers

  const MANAGED := "bivouac-image"
  const PREFIX := "bivouac-"
  const FORMAT := "bivouac-format-"
  const ARCH := "bivouac-arch-"
  const REGION := "bivouac-region-"
  const SHELL := "bivouac-shell-"
  const FORMAT_VERSION := 1

  datatype Markers = Markers(arch: string, region: string, shell: string, format: int)

  // What follows `prefix` in each tag that has it, in order.
  function Suffixes(tags: seq<string>, prefix: string): seq<string> {
    if tags == [] then []
    else
      var last := tags[|tags| - 1];
      Suffixes(tags[..|tags| - 1], prefix) + if HasPrefix(last, prefix) then [last[|prefix|..]] else []
  }

  // Every marker exactly once, the format a number, the rest not empty.
  function Parsed(tags: seq<string>): Option<Markers> {
    var formats, archs := Suffixes(tags, FORMAT), Suffixes(tags, ARCH);
    var regions, shells := Suffixes(tags, REGION), Suffixes(tags, SHELL);
    if multiset(tags)[MANAGED] != 1 || |formats| != 1 || |archs| != 1 || |regions| != 1 || |shells| != 1 then None
    else if Atoi(formats[0]).None? || archs[0] == "" || regions[0] == "" || shells[0] == "" then None
    else Some(Markers(archs[0], regions[0], shells[0], Atoi(formats[0]).value))
  }

  // No tag is of two kinds.
  predicate OneKind(t: string) {
    && (t == MANAGED ==> !HasPrefix(t, FORMAT) && !HasPrefix(t, ARCH) && !HasPrefix(t, REGION) && !HasPrefix(t, SHELL))
    && (HasPrefix(t, FORMAT) ==> !HasPrefix(t, ARCH) && !HasPrefix(t, REGION) && !HasPrefix(t, SHELL))
    && (HasPrefix(t, ARCH) ==> !HasPrefix(t, REGION) && !HasPrefix(t, SHELL))
    && (HasPrefix(t, REGION) ==> !HasPrefix(t, SHELL))
  }

  lemma KindsApart(t: string)
    ensures OneKind(t)
  {
    assert MANAGED[8] == 'i' && FORMAT[8] == 'f' && ARCH[8] == 'a' && REGION[8] == 'r' && SHELL[8] == 's';
    assert HasPrefix(MANAGED, MANAGED);
  }

  // What the loop has counted and kept when it has seen these tags.
  ghost predicate Tallied(tags: seq<string>, managed: nat, formats: nat, archs: nat, regions: nat, shells: nat, m: Markers) {
    && managed == multiset(tags)[MANAGED]
    && formats == |Suffixes(tags, FORMAT)|
    && (forall k :: 0 <= k < formats ==> Atoi(Suffixes(tags, FORMAT)[k]).Some?)
    && (formats > 0 ==> Atoi(Suffixes(tags, FORMAT)[formats - 1]) == Some(m.format))
    && Seen(Suffixes(tags, ARCH), archs, m.arch)
    && Seen(Suffixes(tags, REGION), regions, m.region)
    && Seen(Suffixes(tags, SHELL), shells, m.shell)
  }

  ghost predicate Seen(found: seq<string>, count: nat, last: string) {
    count == |found| && (found != [] ==> last == found[|found| - 1])
  }

  lemma SuffixesSnoc(tags: seq<string>, t: string, prefix: string)
    ensures Suffixes(tags + [t], prefix) == Suffixes(tags, prefix) + if HasPrefix(t, prefix) then [t[|prefix|..]] else []
  {
    assert (tags + [t])[..|tags|] == tags;
  }

  // One tag more, of whatever kind it is.
  lemma TallyOne(tags: seq<string>, t: string, managed: nat, formats: nat, archs: nat, regions: nat, shells: nat,
                 m: Markers)
    requires Tallied(tags, managed, formats, archs, regions, shells, m)
    ensures t == MANAGED ==> Tallied(tags + [t], managed + 1, formats, archs, regions, shells, m)
    ensures HasPrefix(t, FORMAT) && Atoi(t[|FORMAT|..]).Some?
            ==> Tallied(tags + [t], managed, formats + 1, archs, regions, shells, m.(format := Atoi(t[|FORMAT|..]).value))
    ensures HasPrefix(t, ARCH)
            ==> Tallied(tags + [t], managed, formats, archs + 1, regions, shells, m.(arch := t[|ARCH|..]))
    ensures HasPrefix(t, REGION)
            ==> Tallied(tags + [t], managed, formats, archs, regions + 1, shells, m.(region := t[|REGION|..]))
    ensures HasPrefix(t, SHELL)
            ==> Tallied(tags + [t], managed, formats, archs, regions, shells + 1, m.(shell := t[|SHELL|..]))
    ensures t != MANAGED && !HasPrefix(t, FORMAT) && !HasPrefix(t, ARCH) && !HasPrefix(t, REGION) && !HasPrefix(t, SHELL)
            ==> Tallied(tags + [t], managed, formats, archs, regions, shells, m)
  {
    hide HasPrefix, Atoi, Suffixes;
    KindsApart(t);
    SuffixesSnoc(tags, t, FORMAT);
    SuffixesSnoc(tags, t, ARCH);
    SuffixesSnoc(tags, t, REGION);
    SuffixesSnoc(tags, t, SHELL);
  }

  method ParseMarkers(tags: seq<string>) returns (r: Option<Markers>)
    ensures r == Parsed(tags)
  {
    hide HasPrefix, Atoi, Suffixes, Tallied;
    var m := Markers("", "", "", 0);
    var managed: nat, formats: nat, archs: nat, regions: nat, shells: nat := 0, 0, 0, 0, 0;
    NoTags();
    for n := 0 to |tags|
      invariant Tallied(tags[..n], managed, formats, archs, regions, shells, m)
    {
      var t := tags[n];
      TallyOne(tags[..n], t, managed, formats, archs, regions, shells, m);
      assert tags[..n] + [t] == tags[..n + 1];
      PrefixLengths(t);
      if t == MANAGED {
        managed := managed + 1;
      } else if HasPrefix(t, FORMAT) {
        var f := Atoi(t[|FORMAT|..]);
        if f.None? {
          BadFormat(tags, n);
          return None;
        }
        m := m.(format := f.value);
        formats := formats + 1;
      } else if HasPrefix(t, ARCH) {
        m := m.(arch := t[|ARCH|..]);
        archs := archs + 1;
      } else if HasPrefix(t, REGION) {
        m := m.(region := t[|REGION|..]);
        regions := regions + 1;
      } else if HasPrefix(t, SHELL) {
        m := m.(shell := t[|SHELL|..]);
        shells := shells + 1;
      }
    }
    assert tags[..|tags|] == tags;
    WhatIsTallied(tags, managed, formats, archs, regions, shells, m);
    if managed != 1 || formats != 1 || archs != 1 || regions != 1 || shells != 1 {
      return None;
    }
    if m.arch == "" || m.region == "" || m.shell == "" {
      return None;
    }
    return Some(m);
  }

  lemma NoTags()
    ensures Tallied([], 0, 0, 0, 0, 0, Markers("", "", "", 0))
  {
  }

  lemma WhatIsTallied(tags: seq<string>, managed: nat, formats: nat, archs: nat, regions: nat, shells: nat, m: Markers)
    requires Tallied(tags, managed, formats, archs, regions, shells, m)
    ensures Parsed(tags)
            == if managed != 1 || formats != 1 || archs != 1 || regions != 1 || shells != 1
                  || m.arch == "" || m.region == "" || m.shell == "" then None else Some(m)
  {
    hide Atoi, Suffixes;
  }

  lemma PrefixLengths(t: string)
    ensures HasPrefix(t, FORMAT) ==> |FORMAT| <= |t|
    ensures HasPrefix(t, ARCH) ==> |ARCH| <= |t|
    ensures HasPrefix(t, REGION) ==> |REGION| <= |t|
    ensures HasPrefix(t, SHELL) ==> |SHELL| <= |t|
  {
  }

  lemma {:induction false} SuffixFound(tags: seq<string>, prefix: string, n: nat)
    requires n < |tags| && HasPrefix(tags[n], prefix)
    ensures tags[n][|prefix|..] in Suffixes(tags, prefix)
    decreases |tags|
  {
    if n < |tags| - 1 {
      SuffixFound(tags[..|tags| - 1], prefix, n);
    }
  }

  lemma BadFormat(tags: seq<string>, n: nat)
    requires n < |tags| && HasPrefix(tags[n], FORMAT) && Atoi(tags[n][|FORMAT|..]).None?
    ensures Parsed(tags) == None
  {
    SuffixFound(tags, FORMAT, n);
  }

  // ------------------------------------------------------------- the round trip

  predicate TagChar(c: char) {
    'A' <= c <= 'Z' || 'a' <= c <= 'z' || IsDigit(c) || c == ':' || c == '_' || c == '-'
  }

  predicate ValidUserTag(tag: string) {
    && tag != "" && |tag| <= 255
    && (forall k :: 0 <= k < |tag| ==> TagChar(tag[k]))
    && !HasPrefix(tag, PREFIX)
  }

  function SnapshotTags(userTag: string, arch: string, region: string, shell: string): seq<string> {
    [MANAGED, FORMAT + "1", ARCH + arch, REGION + region, SHELL + shell, userTag]
  }

  lemma WhoseSuffix(tag: string, prefix: string, x: string)
    ensures tag == prefix + x <==> HasPrefix(tag, prefix) && |prefix| <= |tag| && tag[|prefix|..] == x
    ensures HasPrefix(tag, prefix) ==> |prefix| <= |tag|
  {
    if HasPrefix(tag, prefix) {
      assert tag == prefix + tag[|prefix|..];
    }
    assert (prefix + x)[|prefix|..] == x;
  }

  lemma {:induction false} SuffixesCount(tags: seq<string>, prefix: string, x: string)
    ensures multiset(Suffixes(tags, prefix))[x] == multiset(tags)[prefix + x]
  {
    if tags != [] {
      hide HasPrefix;
      var front, last := tags[..|tags| - 1], tags[|tags| - 1];
      SuffixesCount(front, prefix, x);
      assert tags == front + [last];
      WhoseSuffix(last, prefix, x);
    }
  }

  // Neither the order of the tags nor anything else about their listing matters.
  lemma SameSuffixes(tags: seq<string>, others: seq<string>, prefix: string)
    requires multiset(tags) == multiset(others)
    ensures multiset(Suffixes(tags, prefix)) == multiset(Suffixes(others, prefix))
  {
    forall x ensures multiset(Suffixes(tags, prefix))[x] == multiset(Suffixes(others, prefix))[x] {
      SuffixesCount(tags, prefix, x);
      SuffixesCount(others, prefix, x);
    }
  }

  lemma {:induction false} NoSuffixes(tags: seq<string>, prefix: string)
    requires forall k :: 0 <= k < |tags| ==> !HasPrefix(tags[k], prefix)
    ensures Suffixes(tags, prefix) == []
  {
    if tags != [] {
      NoSuffixes(tags[..|tags| - 1], prefix);
    }
  }

  lemma {:induction false} SuffixesConcat(a: seq<string>, b: seq<string>, prefix: string)
    ensures Suffixes(a + b, prefix) == Suffixes(a, prefix) + Suffixes(b, prefix)
    decreases |b|
  {
    if b == [] {
      assert a + b == a;
    } else {
      var n := |b| - 1;
      assert (a + b)[..|a + b| - 1] == a + b[..n];
      SuffixesConcat(a, b[..n], prefix);
    }
  }

  lemma LongerPrefix(tag: string, prefix: string)
    requires HasPrefix(prefix, PREFIX) && !HasPrefix(tag, PREFIX)
    ensures !HasPrefix(tag, prefix) && tag != prefix
  {
  }

  // What a kind finds among six tags of which only the k-th is of that kind.
  lemma OneOfSix(t: seq<string>, prefix: string, x: string, k: nat)
    requires |t| == 6 && k < 6 && t[k] == prefix + x
    requires forall i :: 0 <= i < 6 && i != k ==> !HasPrefix(t[i], prefix)
    ensures Suffixes(t, prefix) == [x]
  {
    var before, after := t[..k], t[k + 1..];
    assert t == before + ([t[k]] + after);
    SuffixesConcat(before, [t[k]] + after, prefix);
    SuffixesConcat([t[k]], after, prefix);
    NoSuffixes(before, prefix);
    NoSuffixes(after, prefix);
  }

  lemma Marked(t: string, p: string, x: string)
    requires t == p + x
    ensures HasPrefix(t, p)
  {
    assert t[..|p|] == p;
  }

  lemma SnapshotSuffixes(u: string, a: string, r: string, s: string, extra: seq<string>)
    requires ValidUserTag(u) && forall k :: 0 <= k < |extra| ==> ValidUserTag(extra[k])
    ensures var tags := SnapshotTags(u, a, r, s) + extra;
            && Suffixes(tags, FORMAT) == ["1"] && Suffixes(tags, ARCH) == [a]
            && Suffixes(tags, REGION) == [r] && Suffixes(tags, SHELL) == [s]
  {
    hide HasPrefix;
    var t := SnapshotTags(u, a, r, s);
    SixKinds(u, a, r, s);
    OneOfSix(t, FORMAT, "1", 1);
    OneOfSix(t, ARCH, a, 2);
    OneOfSix(t, REGION, r, 3);
    OneOfSix(t, SHELL, s, 4);
    NoMarkers(extra, FORMAT);
    NoMarkers(extra, ARCH);
    NoMarkers(extra, REGION);
    NoMarkers(extra, SHELL);
    SuffixesConcat(t, extra, FORMAT);
    SuffixesConcat(t, extra, ARCH);
    SuffixesConcat(t, extra, REGION);
    SuffixesConcat(t, extra, SHELL);
  }

  lemma SixKinds(u: string, a: string, r: string, s: string)
    requires ValidUserTag(u)
    ensures var t := SnapshotTags(u, a, r, s);
            && (forall i :: 0 <= i < 6 && i != 1 ==> !HasPrefix(t[i], FORMAT))
            && (forall i :: 0 <= i < 6 && i != 2 ==> !HasPrefix(t[i], ARCH))
            && (forall i :: 0 <= i < 6 && i != 3 ==> !HasPrefix(t[i], REGION))
            && (forall i :: 0 <= i < 6 && i != 4 ==> !HasPrefix(t[i], SHELL))
  {
    hide HasPrefix;
    var t := SnapshotTags(u, a, r, s);
    Marked(t[1], FORMAT, "1");
    Marked(t[2], ARCH, a);
    Marked(t[3], REGION, r);
    Marked(t[4], SHELL, s);
    LongerPrefix(u, FORMAT);
    LongerPrefix(u, ARCH);
    LongerPrefix(u, REGION);
    LongerPrefix(u, SHELL);
    KindsApart(t[0]);
    KindsApart(t[1]);
    KindsApart(t[2]);
    KindsApart(t[3]);
    KindsApart(t[4]);
  }

  lemma NoMarkers(extra: seq<string>, prefix: string)
    requires HasPrefix(prefix, PREFIX) && forall k :: 0 <= k < |extra| ==> ValidUserTag(extra[k])
    ensures Suffixes(extra, prefix) == []
  {
    forall k | 0 <= k < |extra| ensures !HasPrefix(extra[k], prefix) {
      LongerPrefix(extra[k], prefix);
    }
    NoSuffixes(extra, prefix);
  }

  lemma ManagedOnce(u: string, a: string, r: string, s: string, extra: seq<string>)
    requires ValidUserTag(u) && forall k :: 0 <= k < |extra| ==> ValidUserTag(extra[k])
    ensures multiset(SnapshotTags(u, a, r, s) + extra)[MANAGED] == 1
  {
    hide HasPrefix, ValidUserTag;
    var t := SnapshotTags(u, a, r, s);
    ManagedIsNoOther();
    UserTagIsNoMarker(u);
    Marked(t[1], FORMAT, "1");
    Marked(t[2], ARCH, a);
    Marked(t[3], REGION, r);
    Marked(t[4], SHELL, s);
    forall k | 0 <= k < |extra| ensures extra[k] != MANAGED {
      UserTagIsNoMarker(extra[k]);
    }
    OnlyFirst(t, MANAGED);
    assert multiset(t + extra) == multiset(t) + multiset(extra);
  }

  lemma OnlyFirst(t: seq<string>, x: string)
    requires |t| == 6 && t[0] == x && forall k :: 0 < k < 6 ==> t[k] != x
    ensures multiset(t)[x] == 1
  {
    var rest := t[1..];
    assert t == [x] + rest;
    assert multiset(t) == multiset([x]) + multiset(rest);
  }

  lemma UserTagIsNoMarker(tag: string)
    requires ValidUserTag(tag)
    ensures tag != MANAGED
  {
    LongerPrefix(tag, MANAGED);
  }

  lemma ManagedIsNoOther()
    ensures !HasPrefix(MANAGED, FORMAT) && !HasPrefix(MANAGED, ARCH) && !HasPrefix(MANAGED, REGION)
            && !HasPrefix(MANAGED, SHELL)
  {
    hide HasPrefix;
    KindsApart(MANAGED);
  }

  // Tags written by a build are read back as that build, in any order and with any further valid
  // user tags among them.
  lemma TagsRoundTrip(u: string, a: string, r: string, s: string, extra: seq<string>, tags: seq<string>)
    requires ValidUserTag(u) && a != "" && r != "" && s != ""
    requires forall k :: 0 <= k < |extra| ==> ValidUserTag(extra[k])
    requires multiset(tags) == multiset(SnapshotTags(u, a, r, s) + extra)
    ensures Parsed(tags) == Some(Markers(a, r, s, FORMAT_VERSION))
    ensures u in tags
  {
    hide HasPrefix, ValidUserTag, Suffixes, SnapshotTags, Atoi;
    FormatReads();
    var written := SnapshotTags(u, a, r, s) + extra;
    SnapshotSuffixes(u, a, r, s, extra);
    ManagedOnce(u, a, r, s, extra);
    SameSuffixes(tags, written, FORMAT);
    SameSuffixes(tags, written, ARCH);
    SameSuffixes(tags, written, REGION);
    SameSuffixes(tags, written, SHELL);
    TaggedWith(u, a, r, s, extra);
    assert u in multiset(tags);
  }

  lemma FormatReads()
    ensures Atoi("1") == Some(FORMAT_VERSION)
  {
    assert "1"[..0] == "";
    assert NumberOf("1") == 1;
  }

  lemma TaggedWith(u: string, a: string, r: string, s: string, extra: seq<string>)
    ensures u in multiset(SnapshotTags(u, a, r, s) + extra)
  {
    assert (SnapshotTags(u, a, r, s) + extra)[5] == u;
  }

  // ----------------------------------------------------------------- eligibility

  datatype Image = Image(id: string, created: int, regions: seq<string>, status: string, tags: seq<string>, kind: string)

  datatype Scope = Scope(tag: string, arch: string, region: string)

  datatype Reason = NotAvailable | NotSnapshot | NotOurs | OtherFormat | OtherArch | OtherRegion | NotTagged

  function Ineligible(img: Image, s: Scope): Option<Reason> {
    if img.status != "available" then Some(NotAvailable)
    else if img.kind != "snapshot" then Some(NotSnapshot)
    else
      match Parsed(img.tags)
      case None => Some(NotOurs)
      case Some(m) =>
        if m.format != FORMAT_VERSION then Some(OtherFormat)
        else if m.arch != s.arch then Some(OtherArch)
        else if m.region != s.region || s.region !in img.regions then Some(OtherRegion)
        else if s.tag != "" && s.tag !in img.tags then Some(NotTagged)
        else None
  }

  predicate Eligible(img: Image, s: Scope) { Ineligible(img, s) == None }

  // One tag, and only one, has the prefix, and x is the rest of it.
  predicate Once(tags: seq<string>, prefix: string, x: string) {
    exists k :: 0 <= k < |tags| && tags[k] == prefix + x && OnlyAt(tags, prefix, k)
  }

  predicate OnlyAt(tags: seq<string>, prefix: string, k: int) {
    forall j :: 0 <= j < |tags| && HasPrefix(tags[j], prefix) ==> j == k
  }

  lemma OnlyAtSplits(tags: seq<string>, prefix: string, k: int)
    requires tags != []
    ensures
      var n := |tags| - 1;
      OnlyAt(tags, prefix, k) <==> OnlyAt(tags[..n], prefix, k) && (HasPrefix(tags[n], prefix) ==> k == n)
  {
    hide HasPrefix;
    var n := |tags| - 1;
    assert forall j :: 0 <= j < n ==> tags[..n][j] == tags[j];
  }

  lemma {:induction false} NoneSuffixed(tags: seq<string>, prefix: string, k: int)
    requires !(0 <= k < |tags|)
    ensures Suffixes(tags, prefix) == [] <==> OnlyAt(tags, prefix, k)
  {
    hide HasPrefix;
    if tags != [] {
      OnlyAtSplits(tags, prefix, k);
      NoneSuffixed(tags[..|tags| - 1], prefix, k);
    }
  }

  lemma {:induction false} OnceExactly(tags: seq<string>, prefix: string, x: string)
    ensures Suffixes(tags, prefix) == [x] <==> Once(tags, prefix, x)
  {
    hide OnlyAt;
    if tags != [] {
      var n := |tags| - 1;
      var front := tags[..n];
      WhoseSuffix(tags[n], prefix, x);
      NoneSuffixed(front, prefix, n);
      OnceExactly(front, prefix, x);
      var mine := if HasPrefix(tags[n], prefix) then [tags[n][|prefix|..]] else [];
      assert Suffixes(tags, prefix) == Suffixes(front, prefix) + mine;
      assert mine != [] ==> (Suffixes(tags, prefix) == [x] <==> Suffixes(front, prefix) == [] && mine == [x]) by {
        if mine != [] {
          LastOf(Suffixes(front, prefix), mine[0], x);
        }
      }
      OnceSplits(tags, prefix, x);
    }
  }

  lemma LastOf(front: seq<string>, last: string, x: string)
    ensures front + [last] == [x] <==> front == [] && last == x
  {
    if front + [last] == [x] {
      assert |front + [last]| == 1;
      assert (front + [last])[0] == x && front == [];
    }
  }

  lemma OnceSplits(tags: seq<string>, prefix: string, x: string)
    requires tags != []
    ensures
      var n := |tags| - 1;
      Once(tags, prefix, x) <==>
        if HasPrefix(tags[n], prefix) then tags[n] == prefix + x && OnlyAt(tags[..n], prefix, n) else Once(tags[..n], prefix, x)
  {
    hide HasPrefix, OnlyAt;
    var n := |tags| - 1;
    var front := tags[..n];
    WhoseSuffix(tags[n], prefix, x);
    OnlyAtSplits(tags, prefix, n);
    if Once(tags, prefix, x) {
      var k :| 0 <= k < |tags| && tags[k] == prefix + x && OnlyAt(tags, prefix, k);
      OnlyAtSplits(tags, prefix, k);
      if k < n {
        assert front[k] == prefix + x && OnlyAt(front, prefix, k);
        assert Once(front, prefix, x);
      }
    }
    if HasPrefix(tags[n], prefix) {
      if tags[n] == prefix + x && OnlyAt(front, prefix, n) {
        assert Once(tags, prefix, x);
      }
    } else if Once(front, prefix, x) {
      var k :| 0 <= k < n && front[k] == prefix + x && OnlyAt(front, prefix, k);
      OnlyAtSplits(tags, prefix, k);
      assert tags[k] == prefix + x && OnlyAt(tags, prefix, k);
      assert Once(tags, prefix, x);
    }
  }

  // The markers of an image of ours, built for this architecture in this region: each there, none of
  // its kind beside it, in the one format that is supported.
  predicate BuiltFor(tags: seq<string>, arch: string, region: string) {
    && multiset(tags)[MANAGED] == 1
    && arch != "" && Once(tags, ARCH, arch)
    && region != "" && Once(tags, REGION, region)
    && (exists k :: 0 <= k < |tags| && HasPrefix(tags[k], SHELL) && |tags[k]| > |SHELL| && OnlyAt(tags, SHELL, k))
    && (exists k :: 0 <= k < |tags| && HasPrefix(tags[k], FORMAT) && Atoi(tags[k][|FORMAT|..]) == Some(1) && OnlyAt(tags, FORMAT, k))
  }

  // A ready snapshot, built for the scope, that bears its tag where one is asked for.
  predicate Suits(img: Image, s: Scope) {
    && img.status == "available" && img.kind == "snapshot"
    && s.region in img.regions && (s.tag == "" || s.tag in img.tags)
    && BuiltFor(img.tags, s.arch, s.region)
  }

  // Exactly which images may be launched, kept or deleted in a scope.
  lemma EligibleExactly(img: Image, s: Scope)
    ensures Eligible(img, s) <==> Suits(img, s)
  {
    hide Suffixes, Atoi, Once, OnlyAt;
    var tags := img.tags;
    var archs, regions := Suffixes(tags, ARCH), Suffixes(tags, REGION);
    assert |archs| == 1 && archs[0] == s.arch <==> archs == [s.arch];
    assert |regions| == 1 && regions[0] == s.region <==> regions == [s.region];
    OnceExactly(img.tags, ARCH, s.arch);
    OnceExactly(img.tags, REGION, s.region);
    SomeOnce(img.tags, SHELL);
    SomeOnce(img.tags, FORMAT);
  }

  lemma SomeOnce(tags: seq<string>, prefix: string)
    ensures |Suffixes(tags, prefix)| == 1 <==> exists k :: 0 <= k < |tags| && HasPrefix(tags[k], prefix) && OnlyAt(tags, prefix, k)
    ensures forall k :: 0 <= k < |tags| && HasPrefix(tags[k], prefix) && OnlyAt(tags, prefix, k) ==>
              Suffixes(tags, prefix) == [tags[k][|prefix|..]]
  {
    hide Suffixes, OnlyAt;
    if |Suffixes(tags, prefix)| == 1 {
      var x := Suffixes(tags, prefix)[0];
      assert Suffixes(tags, prefix) == [x];
      OnceExactly(tags, prefix, x);
      var k :| 0 <= k < |tags| && tags[k] == prefix + x && OnlyAt(tags, prefix, k);
      WhoseSuffix(tags[k], prefix, x);
    }
    forall k | 0 <= k < |tags| && HasPrefix(tags[k], prefix) && OnlyAt(tags, prefix, k)
      ensures Suffixes(tags, prefix) == [tags[k][|prefix|..]]
    {
      WhoseSuffix(tags[k], prefix, tags[k][|prefix|..]);
      OnceExactly(tags, prefix, tags[k][|prefix|..]);
    }
  }

  // A finished build is eligible where it was built, whatever users tagged it with since.
  lemma BuildIsEligible(img: Image, u: string, a: string, r: string, s: string, extra: seq<string>)
    requires ValidUserTag(u) && a != "" && r != "" && s != ""
    requires forall k :: 0 <= k < |extra| ==> ValidUserTag(extra[k])
    requires multiset(img.tags) == multiset(SnapshotTags(u, a, r, s) + extra)
    requires img.status == "available" && img.kind == "snapshot" && r in img.regions
    ensures Eligible(img, Scope(u, a, r))
  {
    hide Parsed, ValidUserTag;
    TagsRoundTrip(u, a, r, s, extra, img.tags);
  }

  // For one tag, an image belongs to at most one scope: the one its markers name.
  lemma OneScope(img: Image, s: Scope, t: Scope)
    requires Eligible(img, s) && Eligible(img, t) && s.tag == t.tag
    ensures s == t
  {
  }
}
