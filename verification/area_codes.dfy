/**
 * DictionaryDaoImpl.findAreas and its helper buildParam: the children of a node
 * of the country structure are the 12-character area codes that match a LIKE
 * pattern built from the node's own code, minus the node itself.
 *
 * A code is four fixed-width fields, region (2 digits), district (3), town (3)
 * and street block (4); a field of zeros means "not that deep". The reference
 * definition of the tree is Parent below; the lemmas show that what the query
 * selects is exactly the children Parent defines.
 */
module AreaCodes {
  import opened Wrappers
  import opened Jdbc

  /**
   * A well-formed area code: twelve decimal digits, and no field set below a
   * zero field (a street block lies in a town, a town in a district).
   */
  predicate IsCode(s: string)
  {
    && |s| == 12 && (forall i | 0 <= i < |s| :: '0' <= s[i] <= '9')
    && (!ZeroField(s, 8, 12) ==> !ZeroField(s, 5, 8))
    && (!ZeroField(s, 5, 8) ==> !ZeroField(s, 2, 5))
  }

  /** Every character is one String.trim strips (code point at most U+0020). */
  predicate IsBlank(s: string)
  {
    forall i | 0 <= i < |s| :: s[i] <= ' '
  }

  function TrimLeading(s: string): string
  {
    if |s| > 0 && s[0] <= ' ' then TrimLeading(s[1..]) else s
  }

  function TrimTrailing(s: string): string
  {
    if |s| > 0 && s[|s| - 1] <= ' ' then TrimTrailing(s[..|s| - 1]) else s
  }

  /** String.trim: strip leading and trailing characters up to U+0020. */
  function Trim(s: string): string
  {
    TrimTrailing(TrimLeading(s))
  }

  lemma {:induction false} TrimLeadingBlank(s: string)
    ensures IsBlank(TrimLeading(s)) <==> IsBlank(s)
    ensures TrimLeading(s) == [] <==> IsBlank(s)
    decreases |s|
  {
    if |s| > 0 && s[0] <= ' ' {
      TrimLeadingBlank(s[1..]);
      assert IsBlank(s) <==> IsBlank(s[1..]) by {
        if IsBlank(s[1..]) {
          forall i | 0 <= i < |s| ensures s[i] <= ' ' {
            if i > 0 { assert s[i] == s[1..][i - 1]; }
          }
        }
      }
    }
  }

  lemma {:induction false} TrimTrailingEmpty(s: string)
    ensures TrimTrailing(s) == [] <==> IsBlank(s)
    decreases |s|
  {
    if |s| > 0 && s[|s| - 1] <= ' ' {
      var t := s[..|s| - 1];
      TrimTrailingEmpty(t);
      assert IsBlank(s) <==> IsBlank(t) by {
        if IsBlank(t) {
          forall i | 0 <= i < |s| ensures s[i] <= ' ' {
            if i < |s| - 1 { assert s[i] == t[i]; }
          }
        }
      }
    }
  }

  /** `areaId.trim().isEmpty()` holds exactly for the blank strings. */
  lemma TrimEmpty(s: string)
    ensures Trim(s) == [] <==> IsBlank(s)
  {
    TrimLeadingBlank(s);
    TrimTrailingEmpty(TrimLeading(s));
  }

  /** String.endsWith. */
  predicate EndsWith(s: string, suffix: string)
  {
    |suffix| <= |s| && s[|s| - |suffix|..] == suffix
  }

  /** The pattern for the top level: any region, everything below it zero. */
  const RootPattern: string := "__0000000000"

  /**
   * buildParam. A null or blank code asks for the regions; otherwise the
   * longest zero suffix decides the level, and the pattern keeps the fields
   * above it and leaves the next field free. A code ending in no "0000" is
   * rejected. substring(0, 8) on a code of 4 to 7 characters throws
   * StringIndexOutOfBoundsException, which is IndexOutOfBounds here.
   */
  function BuildParam(areaId: Option<string>): (r: Result<string, DaoError>)
    ensures r.Success? ==> |r.value| == 12
  {
    if areaId.None? || Trim(areaId.value) == [] then Success(RootPattern)
    else
      var s := areaId.value;
      if EndsWith(s, "0000000000") then Success(s[..2] + "___0000000")
      else if EndsWith(s, "0000000") then Success(s[..5] + "___0000")
      else if EndsWith(s, "0000") then
        if |s| < 8 then Failure(IndexOutOfBounds) else Success(s[..8] + "____")
      else Failure(InvalidAreaId(s))
  }

  /** SQL LIKE for patterns whose only wildcard is `_`: same length, agreeing wherever the pattern is not `_`. */
  predicate Like(pattern: string, s: string)
  {
    |pattern| == |s| && forall i | 0 <= i < |s| :: pattern[i] == '_' || pattern[i] == s[i]
  }

  /** The all-zero field test, `s[from..to]` consisting of '0' only. */
  predicate ZeroField(s: string, from: nat, to: nat)
    requires from <= to <= |s|
  {
    forall i | from <= i < to :: s[i] == '0'
  }

  /**
   * Reference definition of the tree: a code's parent is the code with its
   * deepest non-zero field zeroed; a region (only the first field set) has none.
   */
  function Parent(c: string): Option<string>
    requires IsCode(c)
  {
    if !ZeroField(c, 8, 12) then Some(c[..8] + "0000")
    else if !ZeroField(c, 5, 8) then Some(c[..5] + "0000000")
    else if !ZeroField(c, 2, 5) then Some(c[..2] + "0000000000")
    else None
  }

  /** A blank code, and only a blank or missing one, asks for the top level. */
  lemma BlankIsRoot(areaId: Option<string>)
    ensures areaId.None? || IsBlank(areaId.value) ==> BuildParam(areaId) == Success(RootPattern)
    ensures areaId.Some? && !IsBlank(areaId.value) && |areaId.value| == 12 ==> BuildParam(areaId) != Success(RootPattern)
  {
    if areaId.Some? {
      TrimEmpty(areaId.value);
      var s := areaId.value;
      if !IsBlank(s) && |s| == 12 && BuildParam(areaId).Success? {
        var p := BuildParam(areaId).value;
        if EndsWith(s, "0000000000") {
          assert p[2] == '_';
        } else if EndsWith(s, "0000000") {
          assert p[5] == '_';
        } else {
          assert p[8] == '_';
        }
      }
    }
  }

  /** For a non-blank code, each branch in priority order, and the two errors. */
  lemma BuildParamCases(s: string)
    requires !IsBlank(s)
    ensures EndsWith(s, "0000000000") ==> BuildParam(Some(s)) == Success(s[..2] + "___0000000")
    ensures !EndsWith(s, "0000000000") && EndsWith(s, "0000000") ==> BuildParam(Some(s)) == Success(s[..5] + "___0000")
    ensures !EndsWith(s, "0000000") && EndsWith(s, "0000") && |s| >= 8 ==> BuildParam(Some(s)) == Success(s[..8] + "____")
    ensures !EndsWith(s, "0000000") && EndsWith(s, "0000") && |s| < 8 ==> BuildParam(Some(s)) == Failure(IndexOutOfBounds)
    ensures !EndsWith(s, "0000") <==> BuildParam(Some(s)) == Failure(InvalidAreaId(s))
  {
    TrimEmpty(s);
    if EndsWith(s, "0000000000") {
      assert s[|s| - 4..] == "0000000000"[6..];
    } else if EndsWith(s, "0000000") {
      assert s[|s| - 4..] == "0000000"[3..];
    }
  }

  /** The ten-zero test comes first: the all-zero code asks for its own districts, not the top level. */
  lemma AllZeroCode()
    ensures BuildParam(Some("000000000000")) == Success("00___0000000")
  {
    var s := "000000000000";
    TenZeros(s);
    assert s[..2] + "___0000000" == "00___0000000";
  }

  /** A non-blank code ending in ten zeros takes the first branch. */
  lemma TenZeros(s: string)
    requires |s| == 12 && s[0] > ' ' && s[2..] == "0000000000"
    ensures BuildParam(Some(s)) == Success(s[..2] + "___0000000")
  {
    TrimEmpty(s);
  }

  /** A non-blank code ending in exactly seven zeros takes the second branch. */
  lemma SevenZeros(s: string)
    requires |s| == 12 && s[0] > ' ' && s[4] != '0' && s[5..] == "0000000"
    ensures BuildParam(Some(s)) == Success(s[..5] + "___0000")
  {
    TrimEmpty(s);
    assert s[2..][2] != '0';
  }

  /** A non-blank code ending in exactly four zeros takes the third branch. */
  lemma FourZeros(s: string)
    requires |s| == 12 && s[0] > ' ' && s[7] != '0' && s[8..] == "0000"
    ensures BuildParam(Some(s)) == Success(s[..8] + "____")
  {
    TrimEmpty(s);
    assert s[2..][5] != '0';
    assert s[5..][2] != '0';
  }

  /** The inputs the dictionary test passes to findAreas each take a non-error branch, one per level. */
  lemma TestInputs()
    ensures BuildParam(Some("")) == Success("__0000000000")
    ensures BuildParam(Some("020000000000")) == Success("02___0000000")
    ensures BuildParam(Some("020010000000")) == Success("02001___0000")
    ensures BuildParam(Some("020010010000")) == Success("02001001____")
  {
    TrimEmpty("");
    var region, district, town := "020000000000", "020010000000", "020010010000";
    TenZeros(region);
    assert region[..2] + "___0000000" == "02___0000000";
    SevenZeros(district);
    assert district[..5] + "___0000" == "02001___0000";
    FourZeros(town);
    assert town[..8] + "____" == "02001001____";
  }

  /** For a well-formed code: the error cases are exactly the street-block codes (last field non-zero). */
  lemma CodeRejectedIffLeaf(s: string)
    requires IsCode(s)
    ensures BuildParam(Some(s)).Failure? <==> !ZeroField(s, 8, 12)
  {
    assert !IsBlank(s) by { assert s[0] > ' '; }
    BuildParamCases(s);
    assert EndsWith(s, "0000") <==> ZeroField(s, 8, 12) by {
      if ZeroField(s, 8, 12) { assert s[8..] == "0000"; }
      if EndsWith(s, "0000") {
        forall i | 8 <= i < 12 ensures s[i] == '0' { assert s[i] == s[8..][i - 8]; }
      }
    }
    if EndsWith(s, "0000000000") {
      assert s[8..] == "0000000000"[6..];
    } else if EndsWith(s, "0000000") {
      assert s[8..] == "0000000"[3..];
    }
  }

  /**
   * For an accepted code the pattern keeps every character it does not turn
   * into `_`, so the code matches its own pattern; hence the `area_id <> ?`
   * half of the filter is what keeps a node out of its own children.
   */
  lemma PatternMatchesCode(s: string)
    requires |s| == 12 && !IsBlank(s) && BuildParam(Some(s)).Success?
    ensures var p := BuildParam(Some(s)).value;
      |p| == 12 && (forall i | 0 <= i < 12 :: p[i] == '_' || p[i] == s[i]) && Like(p, s)
  {
    BuildParamCases(s);
    var p := BuildParam(Some(s)).value;
    if EndsWith(s, "0000000000") {
      forall i | 0 <= i < 12 ensures p[i] == '_' || p[i] == s[i] {
        if i >= 5 { assert s[i] == s[2..][i - 2]; }
      }
    } else if EndsWith(s, "0000000") {
      forall i | 0 <= i < 12 ensures p[i] == '_' || p[i] == s[i] {
        if i >= 8 { assert s[i] == s[5..][i - 5]; }
      }
    }
  }

  /** A code fixed on its first k characters and zero after m, free in between. */
  lemma LikeLevel(p: string, s: string, c: string, k: nat, m: nat, zeros: string)
    requires IsCode(s) && IsCode(c) && k <= m <= 12
    requires zeros == seq(12 - m, _ => '0')
    requires p == s[..k] + seq(m - k, _ => '_') + zeros
    ensures Like(p, c) <==> c[..k] == s[..k] && ZeroField(c, m, 12)
  {
    if Like(p, c) {
      assert c[..k] == s[..k] by {
        forall i | 0 <= i < k ensures c[i] == s[i] { assert p[i] == s[i]; }
      }
      forall i | m <= i < 12 ensures c[i] == '0' { assert p[i] == '0'; }
    }
    if c[..k] == s[..k] && ZeroField(c, m, 12) {
      forall i | 0 <= i < 12 ensures p[i] == '_' || p[i] == c[i] {
        if i < k { assert c[i] == c[..k][i]; }
      }
    }
  }

  /**
   * The query's filter for an accepted code s, `area_id like buildParam(s)
   * and area_id <> s`, holds of a code c exactly when s is c's parent.
   */
  lemma ChildrenAreParented(s: string, c: string)
    requires IsCode(s) && IsCode(c) && BuildParam(Some(s)).Success?
    ensures Like(BuildParam(Some(s)).value, c) && c != s <==> Parent(c) == Some(s)
  {
    assert !IsBlank(s) by { assert s[0] > ' '; }
    BuildParamCases(s);
    CodeRejectedIffLeaf(s);
    if EndsWith(s, "0000000000") {
      RegionLevel(s, c);
    } else if EndsWith(s, "0000000") {
      DistrictLevel(s, c);
    } else {
      TownLevel(s, c);
    }
  }

  lemma RegionLevel(s: string, c: string)
    requires IsCode(s) && IsCode(c) && EndsWith(s, "0000000000")
    ensures Like(s[..2] + "___0000000", c) && c != s <==> Parent(c) == Some(s)
  {
    var p := s[..2] + "___0000000";
    assert p == s[..2] + seq(3, _ => '_') + seq(7, _ => '0');
    LikeLevel(p, s, c, 2, 5, seq(7, _ => '0'));
    assert s[2..] == "0000000000";
    assert ZeroField(s, 2, 12) by {
      forall i | 2 <= i < 12 ensures s[i] == '0' { assert s[i] == s[2..][i - 2]; }
    }
    ParentOfRegionChild(s, c);
  }

  lemma DistrictLevel(s: string, c: string)
    requires IsCode(s) && IsCode(c) && EndsWith(s, "0000000") && !EndsWith(s, "0000000000")
    ensures Like(s[..5] + "___0000", c) && c != s <==> Parent(c) == Some(s)
  {
    var p := s[..5] + "___0000";
    assert p == s[..5] + seq(3, _ => '_') + seq(4, _ => '0');
    LikeLevel(p, s, c, 5, 8, seq(4, _ => '0'));
    ParentOfDistrictChild(s, c);
  }

  lemma TownLevel(s: string, c: string)
    requires IsCode(s) && IsCode(c) && ZeroField(s, 8, 12) && !EndsWith(s, "0000000")
    ensures Like(s[..8] + "____", c) && c != s <==> Parent(c) == Some(s)
  {
    var p := s[..8] + "____";
    assert p == s[..8] + seq(4, _ => '_') + [];
    LikeLevel(p, s, c, 8, 12, []);
    ParentOfTownChild(s, c);
  }

  /** A code built as a prefix of c followed by a tail agrees with c on the prefix and with the tail after it. */
  lemma ConcatAt(s: string, c: string, n: int, tail: string)
    ensures 0 <= n <= |c| && s == c[..n] + tail ==>
      forall k | 0 <= k < |s| :: s[k] == (if k < n then c[k] else tail[k - n])
  {
  }

  /** Under a region s (fields 2..12 zero), Parent(c) == s exactly for the matching codes other than s. */
  lemma ParentOfRegionChild(s: string, c: string)
    requires IsCode(s) && IsCode(c) && ZeroField(s, 2, 12)
    ensures (c[..2] == s[..2] && ZeroField(c, 5, 12) && c != s) <==> Parent(c) == Some(s)
  {
    assert s == s[..2] + "0000000000";
    ConcatAt(s, c, 8, "0000");
    ConcatAt(s, c, 5, "0000000");
    if Parent(c) == Some(s) {
      if !ZeroField(c, 5, 8) {
        assert false;
      }
      assert s[..2] == c[..2];
    }
  }

  /** Under a district s (fields 5..12 zero, field 2..5 not), Parent(c) == s exactly for the matching codes other than s. */
  lemma ParentOfDistrictChild(s: string, c: string)
    requires IsCode(s) && IsCode(c) && EndsWith(s, "0000000") && !EndsWith(s, "0000000000")
    ensures (c[..5] == s[..5] && ZeroField(c, 8, 12) && c != s) <==> Parent(c) == Some(s)
  {
    assert s == s[..5] + "0000000";
    ConcatAt(s, c, 8, "0000");
    ConcatAt(s, s, 5, "0000000");
    ConcatAt(s, c, 2, "0000000000");
    if Parent(c) == Some(s) {
      if ZeroField(c, 5, 8) {
        assert false;
      }
      if !ZeroField(c, 8, 12) {
        assert false;
      }
      assert s[..5] == c[..5];
    }
  }

  /** Under a town s (fields 8..12 zero, field 5..8 not), Parent(c) == s exactly for the matching codes other than s. */
  lemma ParentOfTownChild(s: string, c: string)
    requires IsCode(s) && IsCode(c) && ZeroField(s, 8, 12) && !EndsWith(s, "0000000")
    ensures (c[..8] == s[..8] && c != s) <==> Parent(c) == Some(s)
  {
    assert s == s[..8] + "0000" by {
      forall i | 8 <= i < 12 ensures s[i] == '0' { }
    }
    assert !ZeroField(s, 5, 8);
    if c[..8] == s[..8] && c != s {
      if ZeroField(c, 8, 12) {
        assert false;
      }
    }
    if Parent(c) == Some(s) {
      assert s[..8] == c[..8];
    }
  }

  /**
   * `area_id like pattern and area_id <> exclude` for one row. A null
   * exclusion makes `<>` unknown, and WHERE keeps only rows whose condition
   * is true.
   */
  predicate Keep(c: string, pattern: string, exclude: Option<string>)
  {
    Like(pattern, c) && exclude.Some? && c != exclude.value
  }

  /** The rows of jc_country_struct the query returns, in table order. */
  function Matching(table: seq<string>, pattern: string, exclude: Option<string>): seq<string>
  {
    if table == [] then []
    else (if Keep(table[0], pattern, exclude) then [table[0]] else []) + Matching(table[1..], pattern, exclude)
  }

  /** findAreas over the codes of jc_country_struct: the pattern from buildParam, the exclusion the code as given. */
  function FindAreas(areaId: Option<string>, table: seq<string>): Result<seq<string>, DaoError>
  {
    var pattern :- BuildParam(areaId);
    Success(Matching(table, pattern, areaId))
  }

  /** The query keeps exactly the rows that satisfy the filter, and nothing else. */
  lemma {:induction false} MatchingMembers(table: seq<string>, pattern: string, exclude: Option<string>)
    ensures forall c :: c in Matching(table, pattern, exclude) <==> c in table && Keep(c, pattern, exclude)
  {
    if table != [] {
      MatchingMembers(table[1..], pattern, exclude);
      assert table == [table[0]] + table[1..];
    }
  }

  /** A node is never returned as its own child. */
  lemma NotOwnChild(s: string, table: seq<string>)
    requires FindAreas(Some(s), table).Success?
    ensures s !in FindAreas(Some(s), table).value
  {
    MatchingMembers(table, BuildParam(Some(s)).value, Some(s));
  }

  /** Reference: the codes of `table` whose parent is `s`, in table order. */
  function ChildrenIn(table: seq<string>, s: string): seq<string>
    requires forall c | c in table :: IsCode(c)
  {
    if table == [] then []
    else (if Parent(table[0]) == Some(s) then [table[0]] else []) + ChildrenIn(table[1..], s)
  }

  /** Reference: the codes of `table` that have no parent (the regions), in table order. */
  function RegionsIn(table: seq<string>): seq<string>
    requires forall c | c in table :: IsCode(c)
  {
    if table == [] then []
    else (if Parent(table[0]).None? then [table[0]] else []) + RegionsIn(table[1..])
  }

  /** Two filters that agree row by row give the same rows. */
  lemma {:induction false} MatchingIsChildren(table: seq<string>, s: string)
    requires IsCode(s) && BuildParam(Some(s)).Success?
    requires forall c | c in table :: IsCode(c)
    ensures Matching(table, BuildParam(Some(s)).value, Some(s)) == ChildrenIn(table, s)
  {
    if table != [] {
      ChildrenAreParented(s, table[0]);
      MatchingIsChildren(table[1..], s);
    }
  }

  /**
   * For a town, district or region code s (one with a zero street-block
   * field), findAreas returns exactly the codes whose parent is s, in table
   * order; for a street-block code it fails.
   */
  lemma FindAreasChildren(s: string, table: seq<string>)
    requires IsCode(s)
    requires forall c | c in table :: IsCode(c)
    ensures ZeroField(s, 8, 12) ==> FindAreas(Some(s), table) == Success(ChildrenIn(table, s))
    ensures !ZeroField(s, 8, 12) ==> FindAreas(Some(s), table).Failure?
  {
    CodeRejectedIffLeaf(s);
    if ZeroField(s, 8, 12) {
      MatchingIsChildren(table, s);
    }
  }

  /** The top-level pattern matches exactly the regions. */
  lemma RootPatternRegions(c: string)
    requires IsCode(c)
    ensures Like(RootPattern, c) <==> Parent(c).None?
  {
    if Parent(c).None? {
      forall i | 0 <= i < 12 ensures RootPattern[i] == '_' || RootPattern[i] == c[i] {
      }
    }
    if Like(RootPattern, c) {
      assert ZeroField(c, 2, 12) by {
        forall i | 2 <= i < 12 ensures c[i] == '0' { assert RootPattern[i] == '0'; }
      }
    }
  }

  lemma {:induction false} MatchingIsRegions(table: seq<string>, s: string)
    requires IsBlank(s)
    requires forall c | c in table :: IsCode(c)
    ensures Matching(table, RootPattern, Some(s)) == RegionsIn(table)
  {
    if table != [] {
      var c := table[0];
      RootPatternRegions(c);
      assert c != s by {
        if |s| > 0 { assert c[0] != s[0]; }
      }
      MatchingIsRegions(table[1..], s);
    }
  }

  /** For a blank code, such as the empty string the dictionary test passes, findAreas returns the regions. */
  lemma FindAreasBlank(s: string, table: seq<string>)
    requires IsBlank(s)
    requires forall c | c in table :: IsCode(c)
    ensures FindAreas(Some(s), table) == Success(RegionsIn(table))
  {
    BlankIsRoot(Some(s));
    MatchingIsRegions(table, s);
  }

  /**
   * For a null code buildParam asks for the regions, but the exclusion
   * parameter is null and `area_id <> null` is never true, so findAreas
   * returns nothing whatever the table holds.
   */
  lemma FindAreasNull(table: seq<string>)
    ensures FindAreas(None, table) == Success([])
  {
    NullExclusionKeepsNothing(table, RootPattern);
  }

  lemma {:induction false} NullExclusionKeepsNothing(table: seq<string>, pattern: string)
    ensures Matching(table, pattern, None) == []
  {
    if table != [] {
      NullExclusionKeepsNothing(table[1..], pattern);
    }
  }

  /** findAreas with a null code excluding the empty string instead of null, as a blank code does. */
  function FindAreasNullSafe(areaId: Option<string>, table: seq<string>): Result<seq<string>, DaoError>
  {
    var pattern :- BuildParam(areaId);
    Success(Matching(table, pattern, Some(if areaId.None? then "" else areaId.value)))
  }

  /** With the null case repaired, a null code lists the regions, and every other code is unaffected. */
  lemma FindAreasNullSafeRegions(areaId: Option<string>, table: seq<string>)
    requires forall c | c in table :: IsCode(c)
    ensures areaId.None? ==> FindAreasNullSafe(areaId, table) == Success(RegionsIn(table))
    ensures areaId.Some? ==> FindAreasNullSafe(areaId, table) == FindAreas(areaId, table)
  {
    if areaId.None? {
      MatchingIsRegions(table, "");
    }
  }
}
