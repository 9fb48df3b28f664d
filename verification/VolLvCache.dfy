/** `VolLvCache` and its construction from the names of the logical volumes (src/archive_vol_info.cpp). */
module VolLvCaches {
  import opened Wrappers
  import opened LvNames
  import opened ColdToBase

  /** Greatest cold gid up to `gid` (`searchColdNoGreaterThanGid`). */
  function SearchCold(cold: map<nat, string>, gid: nat): (r: Option<nat>)
    ensures r.Some? ==> r.value in cold && r.value <= gid && forall h :: h in cold && h <= gid ==> h <= r.value
    ensures r.None? ==> forall h :: h in cold ==> gid < h
  {
    if gid in cold then Some(gid) else if gid == 0 then None else SearchCold(cold, gid - 1)
  }

  // ---- what a cache says about the disk ----

  /** The entries carry the printed names. */
  ghost predicate ColdsNamed(v: string, cold: map<nat, string>) {
    forall g :: g in cold ==> g < TWO64 && cold[g] == ColdName(v, g)
  }

  ghost predicate ColdsExist(v: string, lvs: map<string, Lv>, cold: map<nat, string>) {
    forall g :: g in cold ==> ColdName(v, g) in lvs
  }

  ghost predicate TmpKnown(v: string, lvs: map<string, Lv>, tmp: Option<string>) {
    && (tmp.Some? ==> IsTmpName(v, tmp.value))
    && (tmp.None? || tmp.value !in lvs ==> forall g: nat :: g < TWO64 ==> TmpName(v, g) !in lvs)
  }

  ghost predicate IsTmpName(v: string, name: string) {
    exists g: nat :: g < TWO64 && name == TmpName(v, g)
  }

  /** What holds of the cache of a running server: every entry exists, and the temporary image is known. Cold
      images may be missing from it. */
  ghost predicate Known(v: string, d: Disk, c: Cache) {
    ColdsNamed(v, c.cold) && ColdsExist(v, d.lvs, c.cold) && TmpKnown(v, d.lvs, c.tmp)
  }

  ghost predicate SizeKnown(v: string, d: Disk, c: Cache) {
    c.exists_ && BaseName(v) in d.lvs ==> c.sizeLb == d.lvs[BaseName(v)].sizeLb
  }

  /** What a restart finds: in addition, nothing is missing from the cache. */
  ghost predicate Fresh(v: string, d: Disk, c: Cache) {
    && Known(v, d, c) && SizeKnown(v, d, c)
    && (c.exists_ ==> BaseName(v) in d.lvs) && (v != "tmp" && BaseName(v) in d.lvs ==> c.exists_)
    && (forall g: nat :: g < TWO64 && ColdName(v, g) in d.lvs ==> g in c.cold)
  }

  // ---- getVolLvCacheMap, for one volume ----

  predicate ReadsCold(v: string, g: nat, name: string) {
    ParseSnap(name, true, false) == Some((v, g))
  }

  predicate ReadsTmp(v: string, name: string) {
    ParseTmp(name).Some? && ParseTmp(name).value.0 == v
  }

  ghost predicate SomeReadsCold(v: string, g: nat, lvs: map<string, Lv>) {
    exists n :: n in lvs && ReadsCold(v, g, n)
  }

  /** The images of the volume, whatever spelling their names have; of several with one gid, one is listed. */
  ghost predicate Lists(v: string, lvs: map<string, Lv>, c: Cache) {
    && (forall g: nat :: g in c.cold <==> SomeReadsCold(v, g, lvs))
    && (forall g :: g in c.cold ==> c.cold[g] in lvs && ReadsCold(v, g, c.cold[g]))
    && (c.tmp.Some? ==> c.tmp.value in lvs && ReadsTmp(v, c.tmp.value))
    && (c.tmp.None? ==> forall n :: n in lvs ==> !ReadsTmp(v, n))
  }

  lemma {:induction false} BaseNameOf(v: string, name: string)
    ensures ParseBase(name) == Some(v) ==> name == BaseName(v)
  {
    if ParseBase(name) == Some(v) { assert name == name[..3] + name[3..]; }
  }

  method FindBase(v: string, names: seq<string>, d: Disk) returns (found: bool, sizeLb: nat)
    requires IsVolId(v) && forall n :: n in names <==> n in d.lvs
    ensures found ==> BaseName(v) in d.lvs && sizeLb == d.lvs[BaseName(v)].sizeLb
    ensures v != "tmp" && BaseName(v) in d.lvs ==> found
  {
    hide ParseBase, BaseName;
    found, sizeLb := false, 0;
    BaseRoundTrip(v);
    for i := 0 to |names|
      invariant found ==> BaseName(v) in d.lvs && sizeLb == d.lvs[BaseName(v)].sizeLb
      invariant v != "tmp" && BaseName(v) in names[..i] ==> found
    {
      BaseNameOf(v, names[i]);
      assert names[i] in names;
      if ParseBase(names[i]) == Some(v) {
        found, sizeLb := true, d.lvs[names[i]].sizeLb;
      }
    }
    assert names[..|names|] == names;
  }

  method FindColds(v: string, names: seq<string>) returns (cold: map<nat, string>)
    ensures forall n, g :: n in names && ReadsCold(v, g, n) ==> g in cold
    ensures forall g :: g in cold ==> cold[g] in names && ReadsCold(v, g, cold[g])
  {
    hide ParseSnap;
    cold := map[];
    for i := 0 to |names|
      invariant forall n, g :: n in names[..i] && ReadsCold(v, g, n) ==> g in cold
      invariant forall g :: g in cold ==> cold[g] in names && ReadsCold(v, g, cold[g])
    {
      var r := ParseSnap(names[i], true, false);
      if r.Some? && r.value.0 == v && r.value.1 !in cold {
        cold := cold[r.value.1 := names[i]];
      }
      assert names[..i + 1] == names[..i] + [names[i]];
    }
    assert names[..|names|] == names;
  }

  method FindTmp(v: string, names: seq<string>) returns (tmp: Option<string>)
    ensures tmp.Some? ==> tmp.value in names && ReadsTmp(v, tmp.value)
    ensures tmp.None? ==> forall n :: n in names ==> !ReadsTmp(v, n)
  {
    hide ReadsTmp;
    tmp := None;
    for i := 0 to |names|
      invariant tmp.Some? ==> tmp.value in names && ReadsTmp(v, tmp.value)
      invariant tmp.None? ==> forall n :: n in names[..i] ==> !ReadsTmp(v, n)
    {
      if ReadsTmp(v, names[i]) && tmp.None? {
        tmp := Some(names[i]);
      }
      assert names[..i + 1] == names[..i] + [names[i]];
    }
    assert names[..|names|] == names;
  }

  /** `getVolLvCacheMap`: the first image found under a gid counts. */
  method BuildCache(v: string, names: seq<string>, d: Disk) returns (c: Cache)
    requires IsVolId(v) && forall n :: n in names <==> n in d.lvs
    ensures Lists(v, d.lvs, c) && SizeKnown(v, d, c)
    ensures (c.exists_ ==> BaseName(v) in d.lvs) && (v != "tmp" && BaseName(v) in d.lvs ==> c.exists_)
    ensures Tidy(v, d) ==> Fresh(v, d, c)
  {
    hide ReadsCold, ReadsTmp, BaseName, Tidy, Fresh;
    var found, sizeLb := FindBase(v, names, d);
    var cold := FindColds(v, names);
    var tmp := FindTmp(v, names);
    c := Cache(found, sizeLb, cold, tmp);
    if Tidy(v, d) {
      TidyIsFresh(v, d, c);
    }
  }

  /** With tidy names, the listed images are the ones with printed names. */
  lemma {:induction false} TidyIsFresh(v: string, d: Disk, c: Cache)
    requires IsVolId(v) && Tidy(v, d) && Lists(v, d.lvs, c) && SizeKnown(v, d, c)
    requires (c.exists_ ==> BaseName(v) in d.lvs) && (v != "tmp" && BaseName(v) in d.lvs ==> c.exists_)
    ensures Fresh(v, d, c)
  {
    hide ParseSnap, ParseTmp, ColdName, TmpName, BaseName;
    forall g: nat | g < TWO64 && ColdName(v, g) in d.lvs ensures g in c.cold {
      ColdReads(v, g);
      assert ReadsCold(v, g, ColdName(v, g));
    }
    assert ColdsNamed(v, c.cold);
    if c.tmp.Some? {
      var g := ParseTmp(c.tmp.value).value.1;
      assert ParseTmp(c.tmp.value) == Some((v, g));
      assert g < TWO64 && c.tmp.value == TmpName(v, g);
    } else {
      forall g: nat | g < TWO64 ensures TmpName(v, g) !in d.lvs {
        TmpRoundTrip(v, g);
        assert ReadsTmp(v, TmpName(v, g));
      }
    }
  }

  lemma {:induction false} ColdReads(v: string, g: nat)
    requires IsVolId(v) && g < TWO64
    ensures ParseSnap(ColdName(v, g), true, false) == Some((v, g))
  {
    SnapRoundTrip(v, g, true);
  }

  /** `lvm::listLv`: the names, in some order. */
  method ListLv(lvs: map<string, Lv>) returns (names: seq<string>)
    ensures forall n :: n in names <==> n in lvs
  {
    names := [];
    var todo := lvs.Keys;
    while todo != {}
      invariant todo <= lvs.Keys && forall n :: n in lvs <==> n in todo || n in names
      decreases |todo|
    {
      var n :| n in todo;
      names, todo := names + [n], todo - {n};
    }
  }

  // ---- a promotion keeps the cache of a running server ----

  lemma {:induction false} KnownColds(v: string, d: Disk, c: Cache)
    requires Known(v, d, c)
    ensures ColdsNamed(v, c.cold) && ColdsExist(v, d.lvs, c.cold)
    ensures forall h :: h in c.cold ==> h < TWO64 && c.cold[h] == ColdName(v, h) && ColdName(v, h) in d.lvs
  {
    hide ColdName, TmpName;
  }

  lemma {:induction false} KnownSameNames(v: string, d: Disk, d': Disk, c: Cache)
    requires Known(v, d, c) && d'.lvs.Keys == d.lvs.Keys
    ensures Known(v, d', c)
  {
    hide ColdName, TmpName;
  }

  /** A disk without temporary image is known under any temporary name. */
  lemma {:induction false} KnownAtRest(p: Plan, d: Disk, c: Cache)
    requires Promotable(p) && Known(p.v, d, c) && p.d0 == Dropped(d, TmpName(p.v, p.g))
    ensures Known(p.v, p.d0, c)
  {
    hide ColdName, TmpName, BaseName, Tidy;
    forall h | h in c.cold ensures ColdName(p.v, h) in p.d0.lvs {
      NamesDiffer(p.v, h, p.g);
    }
  }

  lemma {:induction false} KnownRenamed(p: Plan, d: Disk, c: Cache)
    requires Promotable(p) && RolledBack(p, d) && Known(p.v, d, c)
    ensures CanRename(d, ColdName(p.v, p.g), TmpName(p.v, p.g))
    ensures Known(p.v, Moved(d, ColdName(p.v, p.g), TmpName(p.v, p.g)),
                  c.(cold := c.cold - {p.g}, tmp := Some(TmpName(p.v, p.g))))
  {
    hide ColdName, TmpName, BaseName, RolledBack, AtRest;
    StartRename(p, d);
    forall h | h in c.cold - {p.g} ensures ColdName(p.v, h) != ColdName(p.v, p.g) {
      NamesDiffer(p.v, h, p.g);
    }
    assert IsTmpName(p.v, TmpName(p.v, p.g));
  }

  lemma {:induction false} KnownDropped(p: Plan, d: Disk, c: Cache)
    requires Promotable(p) && Known(p.v, d, c) && c.tmp == Some(TmpName(p.v, p.g)) && TmpName(p.v, p.g) in d.lvs
    ensures Known(p.v, Dropped(d, BaseName(p.v)), c)
  {
    hide ColdName, TmpName, BaseName, AtRest;
    NamesDiffer(p.v, p.g, p.g);
    forall h | h in c.cold ensures ColdName(p.v, h) != BaseName(p.v) {
      NamesDiffer(p.v, h, h);
    }
  }

  lemma {:induction false} KnownSettled(p: Plan, d: Disk, c: Cache)
    requires Promotable(p) && (RolledBack(p, d) || Promoted(p, d))
    requires ColdsNamed(p.v, c.cold) && ColdsExist(p.v, d.lvs, c.cold) && (c.tmp.Some? ==> IsTmpName(p.v, c.tmp.value))
    ensures Known(p.v, d, c)
  {
    hide ColdName, TmpName, BaseName, Tidy;
    PlanNames(p);
    PhaseNames(p, d);
  }
}
