/**
 Promotion of a cold snapshot to base image and its recovery after a crash (src/archive_vol_info.cpp).
 LVM commands and file replacements are atomic; the power may fail between any two of them, after which
 nothing reaches the disk until a restart rebuilds the cache from the names of the logical volumes.
 */
module ColdToBase {
  import opened Wrappers
  import opened LvNames

  /** `content`: the gid of the snapshot the volume holds. */
  datatype Lv = Lv(content: nat, sizeLb: nat, writable: bool)

  datatype MetaState = MetaState(gidB: nat, isApplying: bool, timestamp: nat)

  /** The volume group, the `base` file and the cold timestamp files of one volume. */
  datatype Disk = Disk(lvs: map<string, Lv>, base: MetaState, stamps: map<nat, nat>)

  /** `VolLvCache` */
  datatype Cache = Cache(exists_: bool, sizeLb: nat, cold: map<nat, string>, tmp: Option<string>)

  // ---- what may be on the disk ----

  /** Every name in the group that reads as a cold or temporary image of v is the one this program prints. */
  ghost predicate Tidy(v: string, d: Disk) {
    forall name :: name in d.lvs ==>
      && (forall g :: ParseSnap(name, true, false) == Some((v, g)) ==> g < TWO64 && name == ColdName(v, g))
      && (forall g :: ParseTmp(name) == Some((v, g)) ==> g < TWO64 && name == TmpName(v, g))
  }

  ghost predicate NoTmp(v: string, d: Disk) {
    forall g :: TmpName(v, g) !in d.lvs
  }

  /** Every cold image holds the snapshot of its gid. */
  ghost predicate ColdsHold(v: string, d: Disk) {
    forall h: nat :: h < TWO64 && ColdName(v, h) in d.lvs ==> d.lvs[ColdName(v, h)].content == h
  }

  /** A volume at rest: the base image holds the snapshot its `base` file names. */
  ghost predicate AtRest(v: string, d: Disk) {
    && Tidy(v, d) && NoTmp(v, d) && ColdsHold(v, d)
    && BaseName(v) in d.lvs && d.lvs[BaseName(v)].content == d.base.gidB
  }

  /** A promotion of cold snapshot g of v from disk d0. */
  datatype Plan = Plan(v: string, d0: Disk, g: nat)

  ghost predicate Promotable(p: Plan) {
    && IsVolId(p.v) && p.g < TWO64 && AtRest(p.v, p.d0)
    && ColdName(p.v, p.g) in p.d0.lvs && p.d0.lvs[ColdName(p.v, p.g)].content == p.g
    && p.g in p.d0.stamps && p.g > p.d0.base.gidB && !p.d0.base.isApplying
  }

  ghost function ColdState(p: Plan): MetaState
    requires p.g in p.d0.stamps
  {
    MetaState(p.g, false, p.d0.stamps[p.g])
  }

  /** Nothing happened, except that the cold image may have been made writable or grown. */
  ghost predicate RolledBack(p: Plan, d: Disk) {
    var cold := ColdName(p.v, p.g);
    cold in d.lvs && d.lvs[cold].content == p.g && d == p.d0.(lvs := p.d0.lvs[cold := d.lvs[cold]])
  }

  /** The cold image has its temporary name and the old base image is still there. */
  ghost predicate Renamed(p: Plan, d: Disk) {
    var cold, tmp := ColdName(p.v, p.g), TmpName(p.v, p.g);
    tmp in d.lvs && d.lvs[tmp].content == p.g && d == p.d0.(lvs := (p.d0.lvs - {cold})[tmp := d.lvs[tmp]])
  }

  /** The old base image is gone; there is no way back. */
  ghost predicate Committed(p: Plan, d: Disk)
  {
    var cold, tmp, base := ColdName(p.v, p.g), TmpName(p.v, p.g), BaseName(p.v);
    && p.g in p.d0.stamps && base in p.d0.lvs
    && tmp in d.lvs && d.lvs[tmp].content == p.g && d.lvs[tmp].writable && d.lvs[tmp].sizeLb >= p.d0.lvs[base].sizeLb
    && d.lvs == (p.d0.lvs - {cold, base})[tmp := d.lvs[tmp]] && d.stamps == p.d0.stamps
    && (d.base == p.d0.base || d.base == ColdState(p))
  }

  /** The cold image is the base image; of the older cold images some may have been removed. */
  ghost predicate Promoted(p: Plan, d: Disk)
  {
    var cold, base := ColdName(p.v, p.g), BaseName(p.v);
    && p.g in p.d0.stamps && base in p.d0.lvs
    && base in d.lvs && d.lvs[base].content == p.g && d.lvs[base].writable
        && d.lvs[base].sizeLb >= p.d0.lvs[base].sizeLb
    && d.base == ColdState(p)
    && d.lvs.Keys <= p.d0.lvs.Keys - {cold}
    && (forall n :: n in d.lvs && n != base ==> d.lvs[n] == p.d0.lvs[n])
    && (forall n :: n in p.d0.lvs && n !in d.lvs ==> n == cold || OlderCold(p.v, p.g, n))
    && (forall h :: h in d.stamps ==> h in p.d0.stamps && d.stamps[h] == p.d0.stamps[h])
    && (forall h :: h in p.d0.stamps && h !in d.stamps ==> h <= p.g)
  }

  /** The name of a cold image below gid g. */
  ghost predicate OlderCold(v: string, g: nat, n: string) {
    exists h: nat :: h < g && n == ColdName(v, h)
  }

  /** Every disk a crash can leave. */
  ghost predicate CrashSafe(p: Plan, d: Disk)
  {
    RolledBack(p, d) || Renamed(p, d) || Committed(p, d) || Promoted(p, d)
  }

  // ---- each atomic step leads from one of these to the next ----

  function Moved(d: Disk, from: string, to: string): Disk
    requires from in d.lvs
  {
    d.(lvs := (d.lvs - {from})[to := d.lvs[from]])
  }

  function Dropped(d: Disk, name: string): Disk {
    d.(lvs := d.lvs - {name})
  }

  function Changed(d: Disk, name: string, lv: Lv): Disk {
    d.(lvs := d.lvs[name := lv])
  }

  function Unstamped(d: Disk, g: nat): Disk {
    d.(stamps := d.stamps - {g})
  }

  ghost predicate CanRename(d: Disk, from: string, to: string) {
    from in d.lvs && to !in d.lvs
  }

  lemma {:induction false} PlanNames(p: Plan)
    requires Promotable(p)
    ensures var cold, tmp, base := ColdName(p.v, p.g), TmpName(p.v, p.g), BaseName(p.v);
            cold != tmp && cold != base && tmp != base && tmp !in p.d0.lvs && cold in p.d0.lvs && base in p.d0.lvs
  {
    hide ColdName, TmpName, BaseName, Tidy;
    NamesDiffer(p.v, p.g, p.g);
  }

  lemma {:induction false} PlanFacts(p: Plan)
    requires Promotable(p)
    ensures RolledBack(p, p.d0) && p.g in p.d0.stamps && p.g < TWO64 && IsVolId(p.v)
    ensures ColdName(p.v, p.g) in p.d0.lvs && BaseName(p.v) in p.d0.lvs
  {
  }

  lemma {:induction false} StartRename(p: Plan, d: Disk)
    requires Promotable(p) && RolledBack(p, d)
    ensures CanRename(d, ColdName(p.v, p.g), TmpName(p.v, p.g))
    ensures Renamed(p, Moved(d, ColdName(p.v, p.g), TmpName(p.v, p.g)))
  {
    hide ColdName, TmpName, BaseName, AtRest;
    PlanNames(p);
  }

  lemma {:induction false} RenameBack(p: Plan, d: Disk)
    requires Promotable(p) && Renamed(p, d)
    ensures CanRename(d, TmpName(p.v, p.g), ColdName(p.v, p.g))
    ensures RolledBack(p, Moved(d, TmpName(p.v, p.g), ColdName(p.v, p.g)))
  {
    hide ColdName, TmpName, BaseName, AtRest;
    PlanNames(p);
  }

  lemma {:induction false} ChangeTmp(p: Plan, d: Disk, lv: Lv)
    requires Promotable(p) && Renamed(p, d) && lv.content == p.g
    ensures Renamed(p, Changed(d, TmpName(p.v, p.g), lv))
  {
    hide ColdName, TmpName, BaseName, AtRest;
  }

  lemma {:induction false} DropBase(p: Plan, d: Disk)
    requires Promotable(p) && Renamed(p, d)
    requires d.lvs[TmpName(p.v, p.g)].writable && d.lvs[TmpName(p.v, p.g)].sizeLb >= p.d0.lvs[BaseName(p.v)].sizeLb
    ensures BaseName(p.v) in d.lvs && Committed(p, Dropped(d, BaseName(p.v)))
  {
    hide ColdName, TmpName, BaseName, Tidy;
    PlanNames(p);
  }

  lemma {:induction false} TakeBaseName(p: Plan, d: Disk)
    requires Promotable(p) && Committed(p, d) && d.base == ColdState(p)
    ensures CanRename(d, TmpName(p.v, p.g), BaseName(p.v))
    ensures Promoted(p, Moved(d, TmpName(p.v, p.g), BaseName(p.v)))
  {
    hide ColdName, TmpName, BaseName, Tidy;
    PlanNames(p);
  }

  lemma {:induction false} DropOldStamp(p: Plan, d: Disk, h: nat)
    requires Promotable(p) && Promoted(p, d) && h <= p.g
    ensures Promoted(p, Unstamped(d, h))
  {
    hide ColdName, TmpName, BaseName, AtRest, OlderCold;
  }

  lemma {:induction false} DropOldCold(p: Plan, d: Disk, h: nat)
    requires Promotable(p) && Promoted(p, d) && h < p.g
    ensures Promoted(p, Dropped(d, ColdName(p.v, h)))
  {
    hide ColdName, TmpName, BaseName, Tidy;
    assert OlderCold(p.v, p.g, ColdName(p.v, h));
    NamesDiffer(p.v, h, h);
  }

  // ---- the temporary image tells the phases apart ----

  /** In every phase the names are tidy, and the only temporary image there may be is the plan's. */
  lemma {:induction false} PhaseNames(p: Plan, d: Disk)
    requires Promotable(p) && CrashSafe(p, d)
    ensures Tidy(p.v, d)
    ensures forall h :: TmpName(p.v, h) in d.lvs ==> TmpName(p.v, h) == TmpName(p.v, p.g)
    ensures TmpName(p.v, p.g) in d.lvs <==> Renamed(p, d) || Committed(p, d)
    ensures BaseName(p.v) in d.lvs <==> RolledBack(p, d) || Renamed(p, d) || Promoted(p, d)
    ensures BaseName(p.v) !in d.lvs <==> Committed(p, d)
  {
    hide ColdName, TmpName, BaseName, OlderCold, ParseSnap, ParseTmp;
    PlanNames(p);
    TmpRoundTrip(p.v, p.g);
    SnapRoundTrip(p.v, p.g, true);
    assert ParseSnap(TmpName(p.v, p.g), true, false) == None by { TmpIsNoSnap(p.v, p.g); }
    assert ParseTmp(ColdName(p.v, p.g)) == None by { ColdIsNoTmp(p.v, p.g); }
  }

  lemma {:induction false} TmpIsNoSnap(v: string, g: nat)
    ensures ParseSnap(TmpName(v, g), true, false) == None
  {
    assert TmpName(v, g)[1] == 'b';
  }

  lemma {:induction false} ColdIsNoTmp(v: string, g: nat)
    ensures ParseTmp(ColdName(v, g)) == None
  {
    assert ColdName(v, g)[1] == 'c';
  }
}
