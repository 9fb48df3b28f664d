/** `ArchiveVolInfo` (src/archive_vol_info.cpp): the steps that change logical volumes, files and cache. */
module ArchiveVolInfos {
  import opened Wrappers
  import opened LvNames
  import opened ColdToBase
  import opened VolLvCaches

  ghost function StampsKept(stamps: map<nat, nat>, gid: nat, todo: set<nat>): map<nat, nat> {
    map h | h in stamps && (h >= gid || h in todo) :: stamps[h]
  }

  lemma {:induction false} StampsToDrop(stamps: map<nat, nat>, gid: nat)
    ensures StampsKept(stamps, gid, set h | h in stamps && h < gid) == stamps
    ensures StampsKept(stamps, gid, {}) == map h | h in stamps && h >= gid :: stamps[h]
  {
  }

  lemma {:induction false} DropOneStamp(stamps: map<nat, nat>, gid: nat, todo: set<nat>, h: nat)
    requires h < gid
    ensures StampsKept(stamps, gid, todo) - {h} == StampsKept(stamps, gid, todo - {h})
  {
  }

  /** Of the logical volumes, only cold images below gid g are gone, and the others are as before. */
  ghost predicate OnlyOlderGone(v: string, g: nat, before: map<string, Lv>, after: map<string, Lv>) {
    && (forall n :: n in after ==> n in before && after[n] == before[n])
    && (forall n :: n in before && n !in after ==> OlderCold(v, g, n))
  }

  /** Without one of them more. */
  lemma {:induction false} OneMoreGone(v: string, g: nat, before: map<string, Lv>, after: map<string, Lv>, h: nat)
    requires OnlyOlderGone(v, g, before, after) && h < g
    ensures OnlyOlderGone(v, g, before, after - {ColdName(v, h)})
  {
    hide ColdName;
    assert OlderCold(v, g, ColdName(v, h));
  }

  /** The image of an entry that is gone from the cache is gone from the disk. */
  ghost predicate GoneWithEntry(v: string, lvs: map<string, Lv>, was: map<nat, string>, cold: map<nat, string>) {
    forall h :: h in was && h !in cold ==> ColdName(v, h) !in lvs
  }

  /** No cold image below gid g is left of those listed in `was`. */
  ghost predicate NoneBelow(v: string, lvs: map<string, Lv>, was: map<nat, string>, g: nat) {
    forall h :: h in was && h < g ==> ColdName(v, h) !in lvs
  }

  lemma {:induction false} OneMoreWithEntry(v: string, lvs: map<string, Lv>, was: map<nat, string>,
                                            cold: map<nat, string>, h: nat)
    requires GoneWithEntry(v, lvs, was, cold)
    ensures GoneWithEntry(v, lvs - {ColdName(v, h)}, was, cold - {h})
  {
    hide ColdName;
  }

  lemma {:induction false} BelowOfRest(v: string, lvs: map<string, Lv>, was: map<nat, string>, rest: map<nat, string>,
                                       g: nat)
    requires rest == was - {g} && NoneBelow(v, lvs, rest, g)
    ensures NoneBelow(v, lvs, was, g)
  {
    hide ColdName;
  }

  lemma {:induction false} IncompleteGone(v: string, d: Disk, was: map<nat, string>, cold: map<nat, string>)
    requires GoneWithEntry(v, d.lvs, was, cold) && forall h :: h in cold ==> h in d.stamps
    ensures forall h :: h in was && h !in d.stamps ==> ColdName(v, h) !in d.lvs
  {
    hide ColdName;
  }

  lemma {:induction false} AllBelowGone(v: string, lvs: map<string, Lv>, was: map<nat, string>, cold: map<nat, string>,
                                        g: nat)
    requires GoneWithEntry(v, lvs, was, cold) && forall h :: h in cold ==> h >= g
    ensures NoneBelow(v, lvs, was, g)
  {
    hide ColdName;
  }

  lemma {:induction false} StartOfRemoval(v: string, g: nat, lvs: map<string, Lv>, cold: map<nat, string>)
    ensures OnlyOlderGone(v, g, lvs, lvs) && GoneWithEntry(v, lvs, cold, cold)
  {
    hide ColdName;
  }

  /** Entry and image go together. */
  lemma {:induction false} ExistWithout(v: string, lvs: map<string, Lv>, cold: map<nat, string>, h: nat)
    requires IsVolId(v) && ColdsNamed(v, cold) && ColdsExist(v, lvs, cold) && h in cold
    ensures ColdsExist(v, lvs - {ColdName(v, h)}, cold - {h})
  {
    hide ColdName, TmpName, BaseName;
    forall g | g in cold - {h} ensures ColdName(v, g) in lvs - {ColdName(v, h)} {
      NamesDiffer(v, g, h);
    }
  }

  /** The other images of the volume are not cold ones. */
  lemma {:induction false} ExistMoved(v: string, d: Disk, cold: map<nat, string>, from: string, to: string)
    requires ColdsExist(v, d.lvs, cold) && from in d.lvs && forall g :: g in cold ==> ColdName(v, g) != from
    ensures ColdsExist(v, Moved(d, from, to).lvs, cold)
  {
    hide ColdName;
  }

  class ArchiveVolInfo {
    const volId: string
    var disk: Disk
    var cache: Cache
    var powered: bool
    var stable: bool           // the power does not fail
    var obeys: bool            // LVM commands that can be done are done
    ghost var plan: Option<Plan>

    /** If a promotion was begun, the disk is one that a crash in it can leave. */
    ghost predicate Safe()
      reads this
    {
      && IsVolId(volId)
      && (plan.Some? ==> plan.value.v == volId && Promotable(plan.value) && CrashSafe(plan.value, disk))
    }

    constructor (volId: string, disk: Disk)
      requires IsVolId(volId)
      ensures this.volId == volId && this.disk == disk && powered && plan == None && Safe()
    {
      this.volId, this.disk, cache := volId, disk, Cache(false, 0, map[], None);
      powered, stable, obeys, plan := true, false, true, None;
    }

    // ---- atomic steps; after a power failure they have no effect ----

    /** The power may fail here. */
    method MayFail()
      modifies this`powered
      ensures powered ==> old(powered)
      ensures stable ==> powered == old(powered)
    {
      if !stable {
        if * {
          powered := false;
        }
      }
    }

    /** An LVM command that could be done may fail all the same. */
    method MayRefuse(possible: bool) returns (ok: bool)
      ensures (ok ==> possible) && (obeys ==> ok == possible)
    {
      ok := possible;
      if !obeys {
        if * {
          ok := false;
        }
      }
    }

    /** `lvrename`, refused if the source is missing or the target exists. */
    method RenameLv(from: string, to: string) returns (ok: bool)
      modifies this`disk, this`powered
      ensures (ok ==> CanRename(old(disk), from, to)) && (obeys ==> ok == CanRename(old(disk), from, to))
      ensures disk == if ok && powered then Moved(old(disk), from, to) else old(disk)
      ensures (powered ==> old(powered)) && (stable ==> powered == old(powered))
    {
      ok := MayRefuse(from in disk.lvs && to !in disk.lvs);
      MayFail();
      if ok && powered {
        disk := Moved(disk, from, to);
      }
    }

    /** `lvremove` */
    method RemoveLv(name: string) returns (ok: bool)
      modifies this`disk, this`powered
      ensures (ok ==> name in old(disk).lvs) && (obeys ==> ok == (name in old(disk).lvs))
      ensures disk == if ok && powered then Dropped(old(disk), name) else old(disk)
      ensures (powered ==> old(powered)) && (stable ==> powered == old(powered))
    {
      ok := MayRefuse(name in disk.lvs);
      MayFail();
      if ok && powered {
        disk := Dropped(disk, name);
      }
    }

    /** `lvchange` to writable, or `lvresize` */
    method ChangeLv(name: string, writable: bool, sizeLb: nat) returns (ok: bool)
      modifies this`disk, this`powered
      ensures (ok ==> name in old(disk).lvs) && (obeys ==> ok == (name in old(disk).lvs))
      ensures disk == if ok && powered
                      then Changed(old(disk), name, old(disk).lvs[name].(writable := writable, sizeLb := sizeLb))
                      else old(disk)
      ensures (powered ==> old(powered)) && (stable ==> powered == old(powered))
    {
      ok := MayRefuse(name in disk.lvs);
      MayFail();
      if ok && powered {
        disk := Changed(disk, name, disk.lvs[name].(writable := writable, sizeLb := sizeLb));
      }
    }

    /** `setMetaState` */
    method SaveBase(st: MetaState)
      modifies this`disk, this`powered
      ensures disk == if powered then old(disk).(base := st) else old(disk)
      ensures (powered ==> old(powered)) && (stable ==> powered == old(powered))
    {
      MayFail();
      if powered {
        disk := disk.(base := st);
      }
    }

    /** `removeColdTimestamp` */
    method RemoveStamp(g: nat)
      modifies this`disk, this`powered
      ensures disk == if powered then Unstamped(old(disk), g) else old(disk)
      ensures (powered ==> old(powered)) && (stable ==> powered == old(powered))
    {
      MayFail();
      if powered {
        disk := Unstamped(disk, g);
      }
    }

    // ---- removeBeforeGid ----

    /** `removeColdTimestampFilesBeforeGid` */
    method RemoveStampsBefore(gid: nat)
      requires Safe() && (plan.Some? ==> gid == plan.value.g && (powered ==> Promoted(plan.value, disk)))
      modifies this`disk, this`powered
      ensures Safe() && (plan.Some? && powered ==> Promoted(plan.value, disk))
      ensures disk == old(disk).(stamps := disk.stamps)
      ensures powered ==> disk.stamps == map h | h in old(disk).stamps && h >= gid :: old(disk).stamps[h]
      ensures (powered ==> old(powered)) && (stable ==> powered == old(powered))
    {
      hide ColdName, TmpName, BaseName, Promotable, RolledBack, Renamed, Committed, Promoted, StampsKept;
      var todo := set h | h in disk.stamps && h < gid;
      StampsToDrop(disk.stamps, gid);
      while todo != {}
        invariant Safe() && (plan.Some? && powered ==> Promoted(plan.value, disk))
        invariant todo <= old(disk).stamps.Keys && forall h :: h in todo ==> h < gid
        invariant disk == old(disk).(stamps := disk.stamps)
        invariant powered ==> disk.stamps == StampsKept(old(disk).stamps, gid, todo)
        invariant (powered ==> old(powered)) && (stable ==> powered == old(powered))
        decreases |todo|
      {
        var h :| h in todo;
        if plan.Some? && powered {
          DropOldStamp(plan.value, disk, h);
        }
        RemoveStamp(h);
        DropOneStamp(old(disk).stamps, gid, todo, h);
        todo := todo - {h};
      }
    }

    /** One round of the loop of `removeBeforeGid` over the cold images. */
    method RemoveOneCold(g: nat, gid: nat, ghost before: map<string, Lv>) returns (ok: bool)
      requires Safe() && (plan.Some? ==> gid == plan.value.g && (powered ==> Promoted(plan.value, disk)))
      requires ColdsNamed(volId, cache.cold) && ColdsExist(volId, disk.lvs, cache.cold) && g in cache.cold && g < gid
      requires OnlyOlderGone(volId, gid, before, disk.lvs)
      modifies this`disk, this`powered, this`cache
      ensures Safe() && (plan.Some? && powered ==> Promoted(plan.value, disk))
      ensures ColdsNamed(volId, cache.cold) && ColdsExist(volId, disk.lvs, cache.cold) && (obeys ==> ok)
      ensures cache == if ok then old(cache).(cold := old(cache).cold - {g}) else old(cache)
      ensures disk == if ok && powered then Dropped(old(disk), ColdName(volId, g)) else old(disk)
      ensures OnlyOlderGone(volId, gid, before, disk.lvs)
      ensures powered ==> forall h :: h in old(cache).cold && h !in cache.cold ==> ColdName(volId, h) !in disk.lvs
      ensures (powered ==> old(powered)) && (stable ==> powered == old(powered))
    {
      hide ColdName, TmpName, BaseName, Promotable, RolledBack, Renamed, Committed, Promoted, OnlyOlderGone;
      ExistWithout(volId, disk.lvs, cache.cold, g);
      OneMoreGone(volId, gid, before, disk.lvs, g);
      if plan.Some? && powered {
        DropOldCold(plan.value, disk, g);
      }
      ok := RemoveLv(cache.cold[g]);
      if ok {
        cache := cache.(cold := cache.cold - {g});
      }
    }

    /** The loop of `removeBeforeGid` over the cold images, oldest first; one that cannot be removed is skipped. */
    method RemoveColdsBefore(gid: nat) returns (failed: bool)
      requires Safe() && (plan.Some? ==> gid == plan.value.g && (powered ==> Promoted(plan.value, disk)))
      requires ColdsNamed(volId, cache.cold) && ColdsExist(volId, disk.lvs, cache.cold)
      modifies this`disk, this`powered, this`cache
      ensures Safe() && (plan.Some? && powered ==> Promoted(plan.value, disk))
      ensures ColdsNamed(volId, cache.cold) && ColdsExist(volId, disk.lvs, cache.cold)
      ensures cache == old(cache).(cold := cache.cold) && cache.cold.Keys <= old(cache).cold.Keys
      ensures forall h :: h in old(cache).cold && h >= gid ==> h in cache.cold
      ensures (!failed ==> forall h :: h in cache.cold ==> h >= gid) && (obeys ==> !failed)
      ensures disk == old(disk).(lvs := disk.lvs) && OnlyOlderGone(volId, gid, old(disk).lvs, disk.lvs)
      ensures powered ==> GoneWithEntry(volId, disk.lvs, old(cache).cold, cache.cold)
      ensures powered && !failed ==> NoneBelow(volId, disk.lvs, old(cache).cold, gid)
      ensures (powered ==> old(powered)) && (stable ==> powered == old(powered))
    {
      hide Safe, ColdsNamed, ColdsExist, Promoted, GoneWithEntry, NoneBelow, OnlyOlderGone;
      StartOfRemoval(volId, gid, disk.lvs, cache.cold);
      failed := false;
      for g := 0 to gid
        invariant Safe() && (plan.Some? && powered ==> Promoted(plan.value, disk))
        invariant ColdsNamed(volId, cache.cold) && ColdsExist(volId, disk.lvs, cache.cold)
        invariant cache == old(cache).(cold := cache.cold) && cache.cold.Keys <= old(cache).cold.Keys
        invariant forall h :: h in old(cache).cold && h >= g ==> h in cache.cold
        invariant (!failed ==> forall h :: h in cache.cold ==> h >= g) && (obeys ==> !failed)
        invariant disk == old(disk).(lvs := disk.lvs) && OnlyOlderGone(volId, gid, old(disk).lvs, disk.lvs)
        invariant powered ==> GoneWithEntry(volId, disk.lvs, old(cache).cold, cache.cold)
        invariant (powered ==> old(powered)) && (stable ==> powered == old(powered))
      {
        if g in cache.cold {
          if powered {
            OneMoreWithEntry(volId, disk.lvs, old(cache).cold, cache.cold, g);
          }
          var ok := RemoveOneCold(g, gid, old(disk).lvs);
          failed := failed || !ok;
        }
      }
      if powered && !failed {
        AllBelowGone(volId, disk.lvs, old(cache).cold, cache.cold, gid);
      }
    }

    /** `removeBeforeGid`, without the diff files. */
    method RemoveBeforeGid(gid: nat) returns (failed: bool)
      requires Safe() && (plan.Some? ==> gid == plan.value.g && (powered ==> Promoted(plan.value, disk)))
      requires ColdsNamed(volId, cache.cold) && ColdsExist(volId, disk.lvs, cache.cold)
      modifies this`disk, this`powered, this`cache
      ensures Safe() && (plan.Some? && powered ==> Promoted(plan.value, disk))
      ensures ColdsNamed(volId, cache.cold) && ColdsExist(volId, disk.lvs, cache.cold)
      ensures cache == old(cache).(cold := cache.cold) && cache.cold.Keys <= old(cache).cold.Keys
      ensures forall h :: h in old(cache).cold && h >= gid ==> h in cache.cold
      ensures (!failed ==> forall h :: h in cache.cold ==> h >= gid) && (obeys ==> !failed)
      ensures disk == old(disk).(lvs := disk.lvs, stamps := disk.stamps)
      ensures OnlyOlderGone(volId, gid, old(disk).lvs, disk.lvs)
      ensures powered ==> GoneWithEntry(volId, disk.lvs, old(cache).cold, cache.cold)
      ensures powered && !failed ==> NoneBelow(volId, disk.lvs, old(cache).cold, gid)
      ensures powered ==> disk.stamps == map h | h in old(disk).stamps && h >= gid :: old(disk).stamps[h]
      ensures (powered ==> old(powered)) && (stable ==> powered == old(powered))
    {
      hide Safe, ColdsNamed, ColdsExist, Promoted, OnlyOlderGone, GoneWithEntry, NoneBelow;
      RemoveStampsBefore(gid);
      failed := RemoveColdsBefore(gid);
    }

    // ---- makeColdToBase ----

    /** Up to the point of no return: the cold image gets its temporary name, becomes writable and at least as
        large as the base image. */
    method PrepareTmp(gid: nat, coldName: string, tmpName: string) returns (ok: bool)
      requires powered && Safe() && plan.Some? && gid == plan.value.g && RolledBack(plan.value, disk)
      requires coldName == ColdName(volId, gid) && tmpName == TmpName(volId, gid)
      requires Known(volId, disk, cache)
      modifies this`disk, this`powered, this`cache
      ensures Safe() && cache == old(cache).(cold := cache.cold, tmp := cache.tmp)
          && (powered ==> Known(volId, disk, cache))
      ensures ok ==> cache.cold == old(cache).cold - {gid}
      ensures powered && ok ==> Renamed(plan.value, disk) && disk.lvs[tmpName].writable
      ensures powered && ok ==> disk.lvs[tmpName].sizeLb >= cache.sizeLb && cache.tmp == Some(tmpName)
      ensures powered && obeys ==> ok
      ensures stable ==> powered
    {
      hide ColdName, TmpName, BaseName, Promotable, Committed, Promoted, RolledBack, Known;
      StartRename(plan.value, disk);
      KnownRenamed(plan.value, disk, cache);
      ok := RenameLv(coldName, tmpName);
      if !ok {
        return;
      }
      cache := cache.(cold := cache.cold - {gid}, tmp := Some(tmpName));
      if powered {
        ChangeTmp(plan.value, disk, disk.lvs[tmpName].(writable := true));
        KnownSameNames(volId, disk, Changed(disk, tmpName, disk.lvs[tmpName].(writable := true)), cache);
      }
      var size := SizeOf(tmpName);
      ok := ChangeLv(tmpName, true, size);
      if !ok {
        return;
      }
      if size < cache.sizeLb {
        if powered {
          ChangeTmp(plan.value, disk, disk.lvs[tmpName].(sizeLb := cache.sizeLb));
          KnownSameNames(volId, disk, Changed(disk, tmpName, disk.lvs[tmpName].(sizeLb := cache.sizeLb)), cache);
        }
        ok := ChangeLv(tmpName, true, cache.sizeLb);
      }
    }

    function SizeOf(name: string): nat
      reads this
    {
      if name in disk.lvs then disk.lvs[name].sizeLb else 0
    }

    /** From the point of no return: the temporary image takes over the name of the base image. */
    method FinishPromotion(gid: nat, st: MetaState, tmpName: string) returns (ok: bool)
      requires Safe() && tmpName == TmpName(volId, gid) && gid < TWO64
      requires plan.Some? ==> gid == plan.value.g && st == ColdState(plan.value)
                              && (powered ==> Committed(plan.value, disk))
      requires ColdsNamed(volId, cache.cold) && (powered ==> ColdsExist(volId, disk.lvs, cache.cold))
      modifies this`disk, this`powered, this`cache
      ensures Safe() && (ok ==> CanRename(old(disk), TmpName(volId, gid), BaseName(volId)))
      ensures obeys && CanRename(old(disk), TmpName(volId, gid), BaseName(volId)) ==> ok
      ensures powered && ok && plan.Some? ==> Promoted(plan.value, disk)
      ensures powered && ok ==> gid !in disk.stamps && ColdsExist(volId, disk.lvs, cache.cold) && disk.base == st
      ensures powered && ok ==>
                OnlyOlderGone(volId, gid, Moved(old(disk), TmpName(volId, gid), BaseName(volId)).lvs, disk.lvs)
      ensures powered && ok && obeys ==> NoneBelow(volId, disk.lvs, old(cache).cold, gid)
      ensures powered && ok ==> disk.stamps == map h | h in old(disk).stamps && h > gid :: old(disk).stamps[h]
      ensures powered && !ok ==> disk == old(disk).(base := st) && cache == old(cache)
      ensures cache == old(cache).(cold := cache.cold) && cache.cold.Keys <= old(cache).cold.Keys
      ensures ColdsNamed(volId, cache.cold)
      ensures (powered ==> old(powered)) && (stable ==> powered == old(powered))
    {
      hide ColdName, TmpName, BaseName, AtRest, Renamed, RolledBack, Promoted, OnlyOlderGone, ColdsExist, NoneBelow;
      SaveBase(st);
      if powered && plan.Some? {
        TakeBaseName(plan.value, disk);
      }
      ok := RenameLv(tmpName, BaseName(volId));
      if !ok || !powered {
        return;
      }
      ExistAfterRename(volId, old(disk).(base := st), cache.cold, gid);
      if plan.Some? {
        DropOldStamp(plan.value, disk, gid);
      }
      RemoveStamp(gid);
      var failed := RemoveBeforeGid(gid);
    }

    /** `makeColdToBase`: if nothing fails, the cold snapshot is the base image afterwards; wherever the power or a
        command fails, the disk is in one of the four phases, and a server still running knows it. A left-over
        temporary image of the same gid is removed first; without base image or cold image in the cache the call
        throws at once. */
    method MakeColdToBase(gid: nat) returns (ok: bool)
      requires powered && Promotable(Plan(volId, Dropped(disk, TmpName(volId, gid)), gid))
      requires Known(volId, disk, cache) && SizeKnown(volId, disk, cache)
      modifies this`disk, this`powered, this`cache, this`plan
      ensures stable ==> powered
      ensures || (disk == old(disk) && plan == old(plan) && !ok)
              || (plan == Some(Plan(volId, Dropped(old(disk), TmpName(volId, gid)), gid)) && Safe())
      ensures powered && plan == Some(Plan(volId, Dropped(old(disk), TmpName(volId, gid)), gid))
          ==> Known(volId, disk, cache)
      ensures powered && ok ==> plan.Some? && Promoted(plan.value, disk) && gid !in disk.stamps && cache.tmp == None
      ensures powered && obeys ==> (ok <==> old(cache).exists_ && gid in old(cache).cold)
      ensures powered && obeys && ok ==> NoneBelow(volId, disk.lvs, old(cache).cold, gid)
      ensures old(cache).exists_ && gid in old(cache).cold && TmpName(volId, gid) !in old(disk).lvs ==>
                plan == Some(Plan(volId, Dropped(old(disk), TmpName(volId, gid)), gid)) && Safe()
    {
      hide ColdName, TmpName, BaseName, RolledBack, Promotable, Committed, Promoted, Renamed, Known, NoneBelow;
      ghost var p := Plan(volId, Dropped(disk, TmpName(volId, gid)), gid);
      PlanFacts(p);
      if !cache.exists_ || gid !in cache.cold {
        return false;
      }
      KnownColds(volId, disk, cache);
      var coldName, tmpName := cache.cold[gid], TmpName(volId, gid);
      var st := MetaState(gid, false, disk.stamps[gid]);
      KnownAtRest(p, disk, cache);
      if tmpName in disk.lvs {
        ok := RemoveLv(tmpName);
        if !ok || !powered {
          return false;
        }
      }
      assert disk == p.d0;
      plan := Some(p);
      ok := Promote(gid, st, coldName, tmpName);
    }

    /** The rest of `makeColdToBase`. */
    method Promote(gid: nat, st: MetaState, coldName: string, tmpName: string) returns (ok: bool)
      requires powered && Safe() && plan.Some? && gid == plan.value.g && disk == plan.value.d0
      requires coldName == ColdName(volId, gid) && tmpName == TmpName(volId, gid) && st == ColdState(plan.value)
      requires Known(volId, disk, cache) && SizeKnown(volId, disk, cache) && cache.exists_
      modifies this`disk, this`powered, this`cache
      ensures Safe() && (powered ==> Known(volId, disk, cache))
      ensures powered && ok ==> Promoted(plan.value, disk) && gid !in disk.stamps && cache.tmp == None
      ensures powered && obeys ==> ok && NoneBelow(volId, disk.lvs, old(cache).cold, gid)
      ensures stable ==> powered
    {
      hide ColdName, TmpName, BaseName, RolledBack, Promotable, Committed, Promoted, Renamed, Known, NoneBelow;
      PlanFacts(plan.value);
      ok := PrepareTmp(gid, coldName, tmpName);
      if !ok {
        return;
      }
      if powered {
        DropBase(plan.value, disk);
        KnownDropped(plan.value, disk, cache) by { RenamedHasTmp(plan.value, disk); }
      }
      ok := RemoveLv(BaseName(volId));
      if !ok || !powered {
        return;
      }
      ghost var cold := cache.cold;
      ok := CompletePromotion(gid, st, tmpName);
      if powered && obeys {
        BelowOfRest(volId, disk.lvs, old(cache).cold, cold, gid);
      }
    }

    /** `FinishPromotion` with the cache of a server still running. */
    method CompletePromotion(gid: nat, st: MetaState, tmpName: string) returns (ok: bool)
      requires powered && Safe() && plan.Some? && gid == plan.value.g && tmpName == TmpName(volId, gid)
      requires st == ColdState(plan.value) && Committed(plan.value, disk) && Known(volId, disk, cache)
      modifies this`disk, this`powered, this`cache
      ensures Safe() && (powered ==> Known(volId, disk, cache))
      ensures powered && ok ==> Promoted(plan.value, disk) && gid !in disk.stamps && cache.tmp == None
      ensures powered && obeys ==> ok && NoneBelow(volId, disk.lvs, old(cache).cold, gid)
      ensures cache == old(cache).(cold := cache.cold, tmp := cache.tmp)
      ensures stable ==> powered
    {
      hide ColdName, TmpName, BaseName, RolledBack, Committed, Promoted, Renamed, Known, ColdsNamed, ColdsExist, AtRest;
      hide NoneBelow, OnlyOlderGone;
      KnownColds(volId, disk, cache);
      CanTakeBaseName(plan.value, disk);
      ghost var d := disk;
      ok := FinishPromotion(gid, st, tmpName);
      if !ok {
        if powered {
          KnownSameNames(volId, d, disk, cache);
        }
        return;
      }
      cache := cache.(tmp := None);
      if powered {
        KnownSettled(plan.value, disk, cache);
      }
    }

    // ---- recovery ----

    /** `recoverColdToBaseIfNecessary`, after a restart or in a server still running. If no command fails, it fails
        exactly when the cold name it wants to give back is taken, or when the base image is missing and the
        temporary image or its timestamp is, too. */
    method Recover() returns (ok: bool)
      requires powered && Safe() && Known(volId, disk, cache)
      modifies this`disk, this`powered, this`cache
      ensures Safe() && (stable ==> powered)
      ensures powered && plan.Some? && ok ==> RolledBack(plan.value, disk) || Promoted(plan.value, disk)
      ensures powered && plan.Some? ==> Known(volId, disk, cache) && (obeys ==> ok)
      ensures powered && obeys ==> (ok <==> CanRecover(volId, old(disk), old(cache).tmp))
      ensures powered && ok && old(SizeKnown(volId, disk, cache)) ==> SizeKnown(volId, disk, cache)
      ensures NoImage(old(disk), old(cache).tmp) ==> disk == old(disk) && cache == old(cache) && powered
      ensures old(plan.Some? && Renamed(plan.value, disk)) && powered && ok ==>
                RolledBack(plan.value, disk) && plan.value.g !in cache.cold
      ensures powered && ok ==> forall g: nat :: old(TmpIs(volId, disk, cache, g)) ==>
        && cache.tmp == None
        && (BaseName(volId) in old(disk).lvs ==> disk == Undone(volId, old(disk), g))
        && (BaseName(volId) !in old(disk).lvs ==> g in old(disk).stamps && Completed(volId, old(disk), g, disk)
                                                  && (obeys ==> NoneBelow(volId, disk.lvs, old(cache).cold, g)))
    {
      hide ColdName, TmpName, BaseName, Promotable, RolledBack, Renamed, Committed, Promoted, ParseTmp, Known;
      if cache.tmp.None? || cache.tmp.value !in disk.lvs {
        if plan.Some? {
          NoTmpPhase();
        }
        return BaseName(volId) in disk.lvs;
      }
      ghost var g := TmpOf();
      OneTmp(volId, disk, cache, g);
      if BaseName(volId) in disk.lvs {
        ok := RecoverWithBase(g);
      } else {
        ok := RecoverWithoutBase(g);
      }
    }

    /** The base image exists: the temporary image goes, or becomes the cold image again. */
    method RecoverWithBase(ghost g: nat) returns (ok: bool)
      requires powered && Safe() && Known(volId, disk, cache) && BaseName(volId) in disk.lvs
      requires TmpIs(volId, disk, cache, g) && (plan.Some? ==> g == plan.value.g && Renamed(plan.value, disk))
      modifies this`disk, this`powered, this`cache
      ensures Safe() && (stable ==> powered) && cache == old(cache).(tmp := cache.tmp)
      ensures powered && plan.Some? && ok ==> RolledBack(plan.value, disk) && plan.value.g !in cache.cold
      ensures powered && plan.Some? ==> Known(volId, disk, cache) && (obeys ==> ok)
      ensures powered && obeys ==> (ok <==> g <= old(disk).base.gidB || ColdName(volId, g) !in old(disk).lvs)
      ensures powered && ok && old(SizeKnown(volId, disk, cache)) ==> SizeKnown(volId, disk, cache)
      ensures powered ==> disk == if ok then Undone(volId, old(disk), g) else old(disk)
      ensures cache.tmp == if ok then None else old(cache).tmp
    {
      hide ColdName, TmpName, BaseName, Promotable, RolledBack, Renamed, Committed, Promoted, ParseTmp,
           Known, ColdsExist, ColdsNamed;
      var tmpName := cache.tmp.value;
      var coldGid := ParseTmp(tmpName).value.1;
      ghost var d := disk;
      KnownColds(volId, disk, cache);
      BaseStays(volId, g);
      if plan.Some? {
        RenameBack(plan.value, disk);
        RenamedFacts(plan.value, disk, cache);
      }
      if coldGid <= disk.base.gidB {
        ok := RemoveLv(tmpName);
        if !ok {
          return;
        }
        RemoveStamp(coldGid);
        cache := cache.(tmp := None);
      } else {
        ok := RenameLv(tmpName, ColdName(volId, coldGid));
        if !ok {
          return;
        }
        cache := cache.(tmp := None);
        if powered && plan.Some? {
          ExistMoved(volId, d, cache.cold, tmpName, ColdName(volId, coldGid));
          KnownSettled(plan.value, disk, cache);
        }
      }
    }

    /** The base image is gone: the temporary image becomes the base image. */
    method RecoverWithoutBase(ghost g: nat) returns (ok: bool)
      requires powered && Safe() && Known(volId, disk, cache) && BaseName(volId) !in disk.lvs
      requires TmpIs(volId, disk, cache, g)
      requires plan.Some? ==> g == plan.value.g && Committed(plan.value, disk) && g in plan.value.d0.stamps
                              && g in disk.stamps && disk.stamps[g] == plan.value.d0.stamps[g]
      modifies this`disk, this`powered, this`cache
      ensures Safe() && (stable ==> powered)
      ensures powered && plan.Some? && ok ==> Promoted(plan.value, disk)
      ensures powered && plan.Some? ==> Known(volId, disk, cache)
      ensures powered && obeys ==> (ok <==> g in old(disk).stamps)
      ensures powered && ok ==> SizeKnown(volId, disk, cache)
      ensures powered && ok ==> g in old(disk).stamps && Completed(volId, old(disk), g, disk) && cache.tmp == None
      ensures powered && ok && obeys ==> NoneBelow(volId, disk.lvs, old(cache).cold, g)
    {
      hide ColdName, TmpName, BaseName, Promotable, RolledBack, Renamed, Committed, Promoted, ParseTmp,
           Known, ColdsExist, ColdsNamed;
      var tmpName := cache.tmp.value;
      var coldGid := ParseTmp(tmpName).value.1;
      ghost var d := disk;
      KnownColds(volId, disk, cache);
      if coldGid !in disk.stamps {
        return false;
      }
      ok := FinishPromotion(coldGid, MetaState(coldGid, false, disk.stamps[coldGid]), tmpName);
      if !ok {
        if powered {
          KnownSameNames(volId, d, disk, cache);
        }
        return;
      }
      cache := cache.(exists_ := true, sizeLb := SizeOf(BaseName(volId)), tmp := None);
      if powered && plan.Some? {
        KnownSettled(plan.value, disk, cache);
      }
    }

    /** Start of the server process: the cache is rebuilt from the names. */
    method Restart(names: seq<string>, stable: bool, obeys: bool)
      requires IsVolId(volId) && forall n :: n in names <==> n in disk.lvs
      modifies this`cache, this`powered, this`stable, this`obeys
      ensures powered && this.stable == stable && this.obeys == obeys
      ensures Lists(volId, disk.lvs, cache) && (Tidy(volId, disk) ==> Fresh(volId, disk, cache))
    {
      cache := BuildCache(volId, names, disk);
      powered, this.stable, this.obeys := true, stable, obeys;
    }

    /** The last loop of `verifyAndRecoverArchiveVol`: a cold image without its timestamp is incomplete and goes. */
    method VerifyColds() returns (ok: bool)
      requires powered && IsVolId(volId) && Known(volId, disk, cache)
      modifies this`cache, this`disk, this`powered
      ensures stable ==> powered
      ensures powered && obeys ==> ok
      ensures ok ==> forall h :: h in cache.cold <==> h in old(cache).cold && h in disk.stamps
      ensures cache == old(cache).(cold := cache.cold) && cache.cold.Keys <= old(cache).cold.Keys
      ensures ColdsNamed(volId, cache.cold) && ColdsExist(volId, disk.lvs, cache.cold)
      ensures disk == old(disk).(lvs := disk.lvs)
      ensures forall n :: n in old(disk).lvs && n !in disk.lvs ==> Incomplete(volId, old(cache).cold, disk.stamps, n)
      ensures forall n :: n in disk.lvs ==> n in old(disk).lvs && disk.lvs[n] == old(disk).lvs[n]
      ensures powered && ok ==>
                forall h :: h in old(cache).cold && h !in disk.stamps ==> ColdName(volId, h) !in disk.lvs
    {
      hide ColdName, TmpName, BaseName, Incomplete, ColdsNamed, ColdsExist, Known, GoneWithEntry;
      KnownColds(volId, disk, cache);
      StartOfRemoval(volId, 0, disk.lvs, cache.cold);
      var todo := cache.cold.Keys;
      while todo != {}
        invariant cache == old(cache).(cold := cache.cold) && cache.cold.Keys <= old(cache).cold.Keys
        invariant disk == old(disk).(lvs := disk.lvs) && (stable ==> powered)
        invariant ColdsNamed(volId, cache.cold) && ColdsExist(volId, disk.lvs, cache.cold) && todo <= cache.cold.Keys
        invariant forall h :: h in cache.cold ==> h in todo || h in disk.stamps
        invariant powered ==> GoneWithEntry(volId, disk.lvs, old(cache).cold, cache.cold)
        invariant forall h :: h in old(cache).cold ==> h in cache.cold || h !in disk.stamps
        invariant forall n :: n in old(disk).lvs && n !in disk.lvs ==>
                                Incomplete(volId, old(cache).cold, disk.stamps, n)
        invariant forall n :: n in disk.lvs ==> n in old(disk).lvs && disk.lvs[n] == old(disk).lvs[n]
        decreases |todo|
      {
        var g :| g in todo;
        ColdAt(volId, disk.lvs, cache.cold, g);
        if cache.cold[g] !in disk.lvs {
          return false;
        }
        if g !in disk.stamps {
          if powered {
            OneMoreWithEntry(volId, disk.lvs, old(cache).cold, cache.cold, g);
          }
          ok := DropIncomplete(g, old(cache).cold);
          if !ok {
            return;
          }
        }
        todo := todo - {g};
      }
      if powered {
        IncompleteGone(volId, disk, old(cache).cold, cache.cold);
      }
      return true;
    }

    /** The source drops the cache entry first, then the image. */
    method DropIncomplete(g: nat, ghost cold: map<nat, string>) returns (ok: bool)
      requires IsVolId(volId) && ColdsNamed(volId, cache.cold) && ColdsExist(volId, disk.lvs, cache.cold)
      requires g in cache.cold && g !in disk.stamps && g in cold
      modifies this`cache, this`disk, this`powered
      ensures ColdsNamed(volId, cache.cold) && ColdsExist(volId, disk.lvs, cache.cold) && (obeys ==> ok)
      ensures cache == old(cache).(cold := old(cache).cold - {g})
      ensures disk == if ok && powered then Dropped(old(disk), ColdName(volId, g)) else old(disk)
      ensures forall n :: n in old(disk).lvs && n !in disk.lvs ==> Incomplete(volId, cold, disk.stamps, n)
      ensures (powered ==> old(powered)) && (stable ==> powered == old(powered))
    {
      hide ColdName, TmpName, BaseName;
      ExistWithout(volId, disk.lvs, cache.cold, g);
      assert Incomplete(volId, cold, disk.stamps, ColdName(volId, g));
      hide Incomplete;
      var name := cache.cold[g];
      cache := cache.(cold := cache.cold - {g});
      ok := RemoveLv(name);
    }

    /** `getMetaStateForApply`; None when a cold timestamp file is missing. */
    function MetaStateForApply(gid: nat): Option<(MetaState, bool)>
      reads this
    {
      if disk.base.isApplying then Some((disk.base, false))
      else match SearchCold(cache.cold, gid)
        case None => Some((disk.base, false))
        case Some(h) =>
          if h <= disk.base.gidB then Some((disk.base, false))
          else if h in disk.stamps then Some((MetaState(h, false, disk.stamps[h]), true))
          else None
    }

    /** The prologue of `applyDiffsToVolume`, on a volume at rest or after a failed promotion: recovery first; then
        the newest cold snapshot above the base and up to gid, if any, becomes the base image. `d` and `c` are disk
        and cache after the recovery. */
    method ApplyPrologue(gid: nat) returns (ok: bool, useCold: bool, st: MetaState, ghost d: Disk, ghost c: Cache)
      requires powered && Safe() && Known(volId, disk, cache) && SizeKnown(volId, disk, cache)
      requires plan == None ==> AtRest(volId, disk)
      modifies this`disk, this`powered, this`cache, this`plan
      ensures stable ==> powered
      ensures powered && ok ==> AtRest(volId, d)
      ensures useCold ==> !d.base.isApplying && Newest(c.cold, d.base.gidB, gid, st.gidB) && st.gidB in d.stamps
      ensures powered && ok && !useCold ==> disk == d && st == d.base
      ensures powered && ok && !useCold ==> d.base.isApplying || NoneAbove(c.cold, d.base.gidB, gid)
      ensures powered && ok && useCold ==> plan == Some(Plan(volId, d, st.gidB)) && Promoted(plan.value, disk)
      ensures Safe()
      ensures powered && obeys && c.exists_ && (forall h :: h in c.cold ==> h in d.stamps) ==> ok
    {
      hide ColdName, TmpName, BaseName, RolledBack, Promoted, Committed, Renamed, Tidy, Promotable, Known;
      useCold, st := false, disk.base;
      if plan == None {
        RestIsKnown(volId, disk, cache);
      }
      ok := Recover();
      d, c := disk, cache;
      if !ok || !powered {
        return;
      }
      if plan.Some? {
        SettledIsAtRest(plan.value, disk);
      }
      var r := MetaStateForApply(gid);
      if r.None? {
        ok := false;
        return;
      }
      st, useCold := r.value.0, r.value.1;
      if useCold {
        CanPromote(volId, disk, cache, st.gidB);
        ok := MakeColdToBase(st.gidB);
      }
    }

    lemma {:induction false} NoTmpPhase()
      requires Safe() && Known(volId, disk, cache) && NoImage(disk, cache.tmp) && plan.Some?
      ensures RolledBack(plan.value, disk) || Promoted(plan.value, disk)
      ensures BaseName(volId) in disk.lvs && !Renamed(plan.value, disk)
    {
      hide ColdName, TmpName, BaseName, RolledBack, Renamed, Committed, Promoted;
      PhaseNames(plan.value, disk);
    }

    /** The temporary image of the cache, and what it says about a promotion under way. */
    lemma {:induction false} TmpOf() returns (g: nat)
      requires Safe() && Known(volId, disk, cache) && !NoImage(disk, cache.tmp)
      ensures TmpIs(volId, disk, cache, g)
      ensures plan.Some? ==> g == plan.value.g
      ensures plan.Some? && Renamed(plan.value, disk) ==> BaseName(volId) in disk.lvs
      ensures plan.Some? && BaseName(volId) in disk.lvs ==> Renamed(plan.value, disk)
      ensures plan.Some? && BaseName(volId) !in disk.lvs ==>
        && Committed(plan.value, disk) && g in plan.value.d0.stamps
        && g in disk.stamps && disk.stamps[g] == plan.value.d0.stamps[g]
    {
      hide ColdName, TmpName, BaseName, RolledBack, Promoted, ParseTmp;
      g :| g < TWO64 && cache.tmp.value == TmpName(volId, g);
      TmpRoundTrip(volId, g);
      if plan.Some? {
        PhaseNames(plan.value, disk);
        NamesDiffer(volId, g, plan.value.g);
      }
    }
  }

  /** The temporary image of the cache is not on the disk. */
  predicate NoImage(d: Disk, tmp: Option<string>) {
    tmp.None? || tmp.value !in d.lvs
  }

  ghost predicate TmpIs(v: string, d: Disk, c: Cache, g: nat) {
    c.tmp == Some(TmpName(v, g)) && g < TWO64 && TmpName(v, g) in d.lvs && ParseTmp(TmpName(v, g)) == Some((v, g))
  }

  /** What recovery makes of a disk with base image and temporary image of gid g: a temporary image not above the base
      is left over and goes with its timestamp; above the base it becomes the cold image again. */
  function Undone(v: string, d: Disk, g: nat): Disk
    requires TmpName(v, g) in d.lvs
  {
    if g <= d.base.gidB then Unstamped(Dropped(d, TmpName(v, g)), g)
    else Moved(d, TmpName(v, g), ColdName(v, g))
  }

  /** What it makes of a disk without base image: the temporary image is the base image and the base file says so; only
      older cold images and timestamps go besides. */
  ghost predicate Completed(v: string, d: Disk, g: nat, d': Disk)
    requires TmpName(v, g) in d.lvs && g in d.stamps
  {
    && d'.base == MetaState(g, false, d.stamps[g])
    && OnlyOlderGone(v, g, Moved(d, TmpName(v, g), BaseName(v)).lvs, d'.lvs)
    && d'.stamps == map h | h in d.stamps && h > g :: d.stamps[h]
  }

  lemma {:induction false} OneTmp(v: string, d: Disk, c: Cache, g: nat)
    requires IsVolId(v) && TmpIs(v, d, c, g)
    ensures forall h :: TmpIs(v, d, c, h) ==> h == g
  {
    hide ColdName, TmpName, BaseName, ParseTmp;
  }

  /** When recovery goes through. */
  ghost predicate CanRecover(v: string, d: Disk, tmp: Option<string>) {
    if NoImage(d, tmp) then BaseName(v) in d.lvs
    else
      ParseTmp(tmp.value).Some? &&
      var g := ParseTmp(tmp.value).value.1;
      if BaseName(v) in d.lvs then g <= d.base.gidB || ColdName(v, g) !in d.lvs else g in d.stamps
  }

  /** A disk on which recovery fails: temporary and cold image of gid 7 above base gid 3. */
  lemma {:induction false} RecoveryFailsOn(lv: Lv)
    ensures var v := "v";
            var d := Disk(map[BaseName(v) := lv, TmpName(v, 7) := lv, ColdName(v, 7) := lv],
                          MetaState(3, false, 0), map[7 := 0]);
            !CanRecover(v, d, Some(TmpName(v, 7)))
  {
    hide ColdName, TmpName, BaseName, ParseTmp;
    assert IsVolId("v");
    TmpRoundTrip("v", 7);
  }

  /** Gid h is the greatest listed one above the base and up to gid. */
  ghost predicate Newest(cold: map<nat, string>, base: nat, gid: nat, h: nat) {
    h in cold && base < h <= gid && forall k :: k in cold && k <= gid ==> k <= h
  }

  ghost predicate NoneAbove(cold: map<nat, string>, base: nat, gid: nat) {
    forall k :: k in cold ==> !(base < k <= gid)
  }

  // ---- small facts about names and phases ----

  lemma {:induction false} RenamedHasTmp(p: Plan, d: Disk)
    requires Renamed(p, d)
    ensures TmpName(p.v, p.g) in d.lvs
  {
  }

  lemma {:induction false} CanTakeBaseName(p: Plan, d: Disk)
    requires Promotable(p) && Committed(p, d)
    ensures CanRename(d, TmpName(p.v, p.g), BaseName(p.v))
  {
    hide ColdName, TmpName, BaseName, RolledBack, Renamed, Committed, Promoted;
    PhaseNames(p, d);
  }

  lemma {:induction false} ExistAfterRename(v: string, d: Disk, cold: map<nat, string>, g: nat)
    requires IsVolId(v) && g < TWO64 && ColdsNamed(v, cold) && ColdsExist(v, d.lvs, cold) && TmpName(v, g) in d.lvs
    ensures ColdsExist(v, Moved(d, TmpName(v, g), BaseName(v)).lvs, cold)
  {
    hide ColdName, TmpName, BaseName;
    forall h | h in cold ensures ColdName(v, h) != TmpName(v, g) {
      NamesDiffer(v, h, g);
    }
    ExistMoved(v, d, cold, TmpName(v, g), BaseName(v));
  }

  lemma {:induction false} BaseStays(v: string, g: nat)
    requires IsVolId(v) && g < TWO64
    ensures TmpName(v, g) != BaseName(v) && ColdName(v, g) != BaseName(v)
  {
    hide ColdName, TmpName, BaseName;
    NamesDiffer(v, g, g);
  }

  lemma {:induction false} RenamedFacts(p: Plan, d: Disk, c: Cache)
    requires Promotable(p) && Renamed(p, d) && ColdsNamed(p.v, c.cold) && ColdsExist(p.v, d.lvs, c.cold)
    ensures d.base.gidB < p.g && p.g !in c.cold && forall h :: h in c.cold ==> ColdName(p.v, h) != TmpName(p.v, p.g)
  {
    hide ColdName, TmpName, BaseName, AtRest;
    PlanNames(p);
    forall h | h in c.cold ensures ColdName(p.v, h) != TmpName(p.v, p.g) {
      NamesDiffer(p.v, h, p.g);
    }
  }

  lemma {:induction false} RestIsKnown(v: string, d: Disk, c: Cache)
    requires AtRest(v, d) && Known(v, d, c)
    ensures NoImage(d, c.tmp) && CanRecover(v, d, c.tmp)
  {
    hide ColdName, TmpName, BaseName, Tidy;
  }

  lemma {:induction false} CanPromote(v: string, d: Disk, c: Cache, g: nat)
    requires IsVolId(v) && AtRest(v, d) && Known(v, d, c) && g in c.cold && g in d.stamps
    requires d.base.gidB < g && !d.base.isApplying
    ensures Dropped(d, TmpName(v, g)) == d && TmpName(v, g) !in d.lvs && Promotable(Plan(v, d, g))
  {
    hide ColdName, TmpName, BaseName, Tidy;
  }

  lemma {:induction false} ColdAt(v: string, lvs: map<string, Lv>, cold: map<nat, string>, g: nat)
    requires ColdsNamed(v, cold) && ColdsExist(v, lvs, cold) && g in cold
    ensures cold[g] == ColdName(v, g) && cold[g] in lvs
  {
    hide ColdName;
  }

  /** A cold image whose timestamp was never written. */
  ghost predicate Incomplete(v: string, cold: map<nat, string>, stamps: map<nat, nat>, name: string) {
    exists h :: h in cold && h !in stamps && name == ColdName(v, h)
  }

  lemma {:induction false} SettledIsAtRest(p: Plan, d: Disk)
    requires Promotable(p) && (RolledBack(p, d) || Promoted(p, d))
    ensures AtRest(p.v, d)
  {
    hide ColdName, TmpName, BaseName, Tidy;
    PhaseNames(p, d);
    PlanNames(p);
    PlanFacts(p);
    forall h: nat | h < TWO64 && ColdName(p.v, h) in d.lvs ensures d.lvs[ColdName(p.v, h)].content == h {
      NamesDiffer(p.v, h, p.g);
    }
  }

  // ---- any number of failures ----

  /** A promotion in which the power or a command fails anywhere, followed by any number of recoveries that fail in
      the same ways, each in the running server or after a restart: the first recovery in which nothing fails
      succeeds and leaves either the old base image with the cold image back under its own name, or the promoted
      cold image; in both cases the base image holds what the `base` file names. */
  method PromoteThroughCrashes(vol: ArchiveVolInfo, gid: nat, attempts: nat) returns (ok: bool)
    requires vol.powered && Promotable(Plan(vol.volId, vol.disk, gid))
    requires Known(vol.volId, vol.disk, vol.cache) && SizeKnown(vol.volId, vol.disk, vol.cache)
    requires vol.cache.exists_ && gid in vol.cache.cold
    modifies vol
    ensures ok && vol.powered && vol.plan == Some(Plan(vol.volId, old(vol.disk), gid))
    ensures RolledBack(vol.plan.value, vol.disk) || Promoted(vol.plan.value, vol.disk)
    ensures AtRest(vol.volId, vol.disk)
  {
    hide ColdName, TmpName, BaseName, RolledBack, Promoted, Committed, Renamed, AtRest, Known, Fresh;
    ghost var p := Plan(vol.volId, vol.disk, gid);
    assert Dropped(vol.disk, TmpName(vol.volId, gid)) == vol.disk by { PlanNames(p); }
    assert TmpName(vol.volId, gid) !in vol.disk.lvs by { PlanNames(p); }
    var _ := vol.MakeColdToBase(gid);
    for i := 0 to attempts
      invariant vol.plan == Some(p) && vol.Safe() && (vol.powered ==> Known(vol.volId, vol.disk, vol.cache))
    {
      Retry(vol, false, false);
      var _ := vol.Recover();
    }
    Retry(vol, true, true);
    ok := vol.Recover();
    SettledIsAtRest(vol.plan.value, vol.disk);
  }

  /** The server goes on, or it is started again; without power it has to be. */
  method Retry(vol: ArchiveVolInfo, stable: bool, obeys: bool)
    requires vol.Safe() && vol.plan.Some? && (vol.powered ==> Known(vol.volId, vol.disk, vol.cache))
    modifies vol`cache, vol`powered, vol`stable, vol`obeys
    ensures vol.Safe() && vol.powered && vol.stable == stable && vol.obeys == obeys
    ensures Known(vol.volId, vol.disk, vol.cache)
  {
    hide ColdName, TmpName, BaseName, RolledBack, Promoted, Committed, Renamed, AtRest, Known;
    PhaseNames(vol.plan.value, vol.disk);
    var goOn := vol.powered;
    if * {
      goOn := false;
    }
    if goOn {
      vol.stable, vol.obeys := stable, obeys;
    } else {
      var names := ListLv(vol.disk.lvs);
      vol.Restart(names, stable, obeys);
    }
  }
}
