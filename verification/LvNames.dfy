/** Names of logical volumes (src/archive_vol_info.cpp, src/archive_vol_info.hpp): printing and parsing. */
module LvNames {
  import opened Wrappers

  const BASE_PREFIX: string := "wb_"
  const RESTORED_PREFIX: string := "wr_"
  const COLD_PREFIX: string := "wc_"
  const TMP_SUFFIX: string := "_tmp"

  const TWO64: nat := 0x1_0000_0000_0000_0000
  const OVERFLOW1: nat := 1844674407370955161

  predicate IsVolIdChar(c: char) {
    '0' <= c <= '9' || 'a' <= c <= 'z' || 'A' <= c <= 'Z' || c == '-'
  }

  predicate IsVolId(s: string) {
    0 < |s| <= 64 && forall i :: 0 <= i < |s| ==> IsVolIdChar(s[i])
  }

  // ---- decimal numbers ----

  function Digit(d: nat): char
    requires d < 10
  {
    '0' + d as char
  }

  function Itoa(n: nat): (s: string)
    ensures s != [] && forall i :: 0 <= i < |s| ==> '0' <= s[i] <= '9'
  {
    if n < 10 then [Digit(n)] else Itoa(n / 10) + [Digit(n % 10)]
  }

  /** `convertToUint`: reads digits up to the end or a NUL, refuses what does not fit in 64 bits. */
  function AtoiFrom(s: string, x: nat): Option<nat> {
    if s == [] || s[0] == '\0' then Some(x)
    else if !('0' <= s[0] <= '9') || x > OVERFLOW1 || (x == OVERFLOW1 && s[0] >= '6') then None
    else AtoiFrom(s[1..], 10 * x + (s[0] - '0') as nat)
  }

  function Atoi(s: string): Option<nat> {
    if s == [] || s[0] == '\0' then None else AtoiFrom(s, 0)
  }

  /** The number that digits stand for, read after x. */
  function ValueFrom(s: string, x: nat): nat
    requires forall i :: 0 <= i < |s| ==> '0' <= s[i] <= '9'
  {
    if s == [] then x else ValueFrom(s[1..], 10 * x + (s[0] - '0') as nat)
  }

  lemma {:induction false} ValueGrows(s: string, x: nat)
    requires forall i :: 0 <= i < |s| ==> '0' <= s[i] <= '9'
    ensures x <= ValueFrom(s, x)
  {
    if s != [] { ValueGrows(s[1..], 10 * x + (s[0] - '0') as nat); }
  }

  /** Digits are read as their number if it fits in 64 bits, and refused if it does not. */
  lemma {:induction false} AtoiExact(s: string, x: nat)
    requires x < TWO64 && forall i :: 0 <= i < |s| ==> '0' <= s[i] <= '9'
    ensures AtoiFrom(s, x) == if ValueFrom(s, x) < TWO64 then Some(ValueFrom(s, x)) else None
  {
    if s != [] {
      var y := 10 * x + (s[0] - '0') as nat;
      ValueGrows(s[1..], y);
      if y < TWO64 { AtoiExact(s[1..], y); }
    }
  }

  lemma {:induction false} AtoiReadsItoa(n: nat, t: string)
    requires n < TWO64
    ensures AtoiFrom(Itoa(n) + t, 0) == AtoiFrom(t, n)
  {
    var s := Itoa(n) + t;
    if n < 10 {
      assert s[1..] == t;
    } else {
      var u := [Digit(n % 10)] + t;
      assert s == Itoa(n / 10) + u;
      AtoiReadsItoa(n / 10, u);
      assert u[1..] == t;
    }
  }

  // ---- strings ----

  predicate HasPrefix(s: string, p: string) {
    p <= s
  }

  predicate HasSuffix(s: string, p: string) {
    |p| <= |s| && s[|s| - |p|..] == p
  }

  /** `std::string::rfind('_')`; |s| when there is none. */
  function LastUnderscore(s: string): (n: nat)
    ensures n <= |s| && (n < |s| ==> s[n] == '_')
    ensures forall i :: (if n < |s| then n + 1 else 0) <= i < |s| ==> s[i] != '_'
  {
    if s == [] then 0
    else if s[|s| - 1] == '_' then |s| - 1
    else var n := LastUnderscore(s[..|s| - 1]); if n == |s| - 1 then |s| else n
  }

  // ---- names ----

  function BaseName(v: string): string { BASE_PREFIX + v }

  function GidName(prefix: string, v: string, g: nat): string { prefix + v + "_" + Itoa(g) }

  function ColdName(v: string, g: nat): string { GidName(COLD_PREFIX, v, g) }

  function RestoredName(v: string, g: nat): string { GidName(RESTORED_PREFIX, v, g) }

  function TmpRestoredName(v: string, g: nat): string { RestoredName(v, g) + TMP_SUFFIX }

  /** The temporary name of a cold image on its way to become the base image. */
  function TmpName(v: string, g: nat): string { GidName(BASE_PREFIX, v, g) + TMP_SUFFIX }

  function ParseBase(name: string): Option<string> {
    if !HasPrefix(name, BASE_PREFIX) || HasSuffix(name, TMP_SUFFIX) then None
    else if IsVolId(name[3..]) then Some(name[3..]) else None
  }

  function ParseVolIdGid(s: string): Option<(string, nat)> {
    var n := LastUnderscore(s);
    if n == |s| || !IsVolId(s[..n]) then None
    else match Atoi(s[n + 1..]) case None => None case Some(g) => Some((s[..n], g))
  }

  function ParseTmp(name: string): Option<(string, nat)> {
    if !HasPrefix(name, BASE_PREFIX) || !HasSuffix(name, TMP_SUFFIX) then None
    else if |name| < 7 then ParseVolIdGid(name[3..])
    else ParseVolIdGid(name[3..|name| - 4])
  }

  function ParseSnap(name: string, isCold: bool, isTmp: bool): Option<(string, nat)> {
    if !HasPrefix(name, if isCold then COLD_PREFIX else RESTORED_PREFIX) then None
    else if HasSuffix(name[3..], TMP_SUFFIX) != isTmp then None
    else if isTmp then ParseVolIdGid(name[3..|name| - 4])
    else ParseVolIdGid(name[3..])
  }

  // ---- round trips ----

  lemma {:induction false} NotSuffix(s: string, p: string)
    requires s != [] && p != []
    ensures s[|s| - 1] != p[|p| - 1] ==> !HasSuffix(s, p)
  {
    if |p| <= |s| {
      assert s[|s| - |p|..][|p| - 1] == s[|s| - 1];
    }
  }

  lemma {:induction false} LastUnderscoreIs(v: string, t: string)
    requires forall i :: 0 <= i < |t| ==> t[i] != '_'
    ensures LastUnderscore(v + "_" + t) == |v|
  {
    hide LastUnderscore;
    var s := v + "_" + t;
    assert s[|v|] == '_';
    forall i | |v| < i < |s| ensures s[i] != '_' { assert s[i] == t[i - |v| - 1]; }
  }

  lemma {:induction false} UnderscoreGid(v: string, g: nat)
    requires IsVolId(v) && g < TWO64
    ensures ParseVolIdGid(v + "_" + Itoa(g)) == Some((v, g))
  {
    var s := v + "_" + Itoa(g);
    hide Itoa, LastUnderscore;
    LastUnderscoreIs(v, Itoa(g));
    assert s[..|v|] == v && s[|v| + 1..] == Itoa(g);
    AtoiReadsItoa(g, "");
    assert Itoa(g) + "" == Itoa(g);
  }

  /** A base image is recognised by its name for every volume but the one called "tmp". */
  lemma {:induction false} BaseRoundTrip(v: string)
    requires IsVolId(v)
    ensures ParseBase(BaseName(v)) == Some(v) <==> v != "tmp"
  {
    var s := BaseName(v);
    assert s[3..] == v;
    forall i | 3 <= i < |s| ensures s[i] != '_' { assert s[i] == v[i - 3] && IsVolIdChar(v[i - 3]); }
    if HasSuffix(s, TMP_SUFFIX) {
      assert s[|s| - 4] == TMP_SUFFIX[0] == '_';
      assert |s| == 6;
      assert v == s[2..][1..] == TMP_SUFFIX[1..];
    }
  }

  lemma {:induction false} TmpRoundTrip(v: string, g: nat)
    requires IsVolId(v) && g < TWO64
    ensures ParseTmp(TmpName(v, g)) == Some((v, g))
  {
    hide Itoa, ParseVolIdGid;
    var s := TmpName(v, g);
    assert s[3..|s| - 4] == v + "_" + Itoa(g);
    UnderscoreGid(v, g);
  }

  lemma {:induction false} SnapRoundTrip(v: string, g: nat, isCold: bool)
    requires IsVolId(v) && g < TWO64
    ensures ParseSnap(GidName(if isCold then COLD_PREFIX else RESTORED_PREFIX, v, g), isCold, false) == Some((v, g))
  {
    hide Itoa, ParseVolIdGid;
    var s := GidName(if isCold then COLD_PREFIX else RESTORED_PREFIX, v, g);
    assert s[3..] == v + "_" + Itoa(g);
    assert s[3..][|s[3..]| - 1] == Itoa(g)[|Itoa(g)| - 1];
    NotSuffix(s[3..], TMP_SUFFIX);
    UnderscoreGid(v, g);
  }

  lemma {:induction false} TmpRestoredRoundTrip(v: string, g: nat)
    requires IsVolId(v) && g < TWO64
    ensures ParseSnap(TmpRestoredName(v, g), false, true) == Some((v, g))
  {
    var s := TmpRestoredName(v, g);
    assert s[3..|s| - 4] == v + "_" + Itoa(g);
    assert s[3..][|s| - 7..] == TMP_SUFFIX;
    UnderscoreGid(v, g);
  }

  /** The five ways to read a name are mutually exclusive. */
  function Classes(name: string): set<int> {
    (if ParseBase(name).Some? then {0} else {}) + (if ParseTmp(name).Some? then {1} else {})
    + (if ParseSnap(name, true, false).Some? then {2} else {}) + (if ParseSnap(name, false, false).Some? then {3}
        else {})
    + (if ParseSnap(name, false, true).Some? then {4} else {})
  }

  lemma {:induction false} OneClass(name: string)
    ensures |Classes(name)| <= 1
  {
    if 2 <= |name| {
      assert HasPrefix(name, BASE_PREFIX) ==> name[1] == 'b';
      assert HasPrefix(name, COLD_PREFIX) ==> name[1] == 'c';
      assert HasPrefix(name, RESTORED_PREFIX) ==> name[1] == 'r';
    }
  }

  /** No two of a volume's names for its base, cold and temporary images clash. */
  lemma {:induction false} NamesDiffer(v: string, g: nat, h: nat)
    requires IsVolId(v) && g < TWO64 && h < TWO64
    ensures TmpName(v, g) != BaseName(v) && ColdName(v, g) != BaseName(v) && ColdName(v, g) != TmpName(v, h)
    ensures ColdName(v, g) == ColdName(v, h) ==> g == h
    ensures TmpName(v, g) == TmpName(v, h) ==> g == h
  {
    TmpRoundTrip(v, g);
    TmpRoundTrip(v, h);
    SnapRoundTrip(v, g, true);
    SnapRoundTrip(v, h, true);
    assert BaseName(v)[3..] == v;
    assert TmpName(v, g)[3..][|v|] == '_';
    assert ColdName(v, g)[1] == 'c';
  }
}
