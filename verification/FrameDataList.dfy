/** The list of frame data with at most one entry per SSID (ov_frame_data_list.c): an array
    with holes that behaves like a bounded map, also when lists are recycled. */
module FrameDataList {
  import opened Multisets
  import opened Options

  type Ssid = x: int | 0 <= x < 0x1_0000_0000

  /** id stands for the address of a frame. */
  datatype FrameData = FrameData(id: nat, ssid: Ssid)

  type Slots = seq<Option<FrameData>>

  /** The slots hold no SSID twice. */
  predicate NoDuplicates(fs: Slots) {
    forall i, j :: 0 <= i < j < |fs| && fs[i].Some? && fs[j].Some? ==> fs[i].value.ssid != fs[j].value.ssid
  }

  predicate HasAt(fs: Slots, i: nat, s: Ssid) {
    i < |fs| && fs[i].Some? && fs[i].value.ssid == s
  }

  function Entry(f: Option<FrameData>): map<Ssid, FrameData> {
    match f
    case Some(d) => map[d.ssid := d]
    case None => map[]
  }

  /** The map the slots stand for. */
  function AsMap(fs: Slots): map<Ssid, FrameData> {
    if fs == [] then map[] else AsMap(fs[1..]) + Entry(fs[0])
  }

  /** Everything in the slots. */
  function Stored(fs: Slots): multiset<FrameData> {
    if fs == [] then multiset{} else OneOrNone(fs[0]) + Stored(fs[1..])
  }

  // ------------------------------------------------------------------ push, pop

  /** The scan of a push from slot i on, with the last hole seen before it. */
  function SlotFrom(fs: Slots, i: nat, hole: Option<nat>, s: Ssid): (r: Option<nat>)
    requires i <= |fs| && (hole.Some? ==> hole.value < |fs|)
    ensures r.Some? ==> r.value < |fs|
    decreases |fs| - i
  {
    if i == |fs| then hole
    else if fs[i].None? then SlotFrom(fs, i + 1, Some(i), s)
    else if fs[i].value.ssid == s then Some(i)
    else SlotFrom(fs, i + 1, hole, s)
  }

  function Push(fs: Slots, d: FrameData): (Slots, Option<FrameData>) {
    match SlotFrom(fs, 0, None, d.ssid)
    case Some(i) => (fs[i := Some(d)], fs[i])
    case None => (fs, Some(d))
  }

  function IndexFrom(fs: Slots, i: nat, s: Ssid): (k: nat)
    requires i <= |fs|
    ensures i <= k <= |fs|
    decreases |fs| - i
  {
    if i == |fs| || HasAt(fs, i, s) then i else IndexFrom(fs, i + 1, s)
  }

  function Pop(fs: Slots, s: Ssid): (Slots, Option<FrameData>) {
    var k := IndexFrom(fs, 0, s);
    if k == |fs| then (fs, None) else (fs[k := None], fs[k])
  }

  /** The reference: a map with room for cap entries. */
  function PushMap(m: map<Ssid, FrameData>, cap: nat, d: FrameData): (map<Ssid, FrameData>, Option<FrameData>) {
    if d.ssid in m then (m[d.ssid := d], Some(m[d.ssid]))
    else if |m| < cap then (m[d.ssid := d], None)
    else (m, Some(d))
  }

  function PopMap(m: map<Ssid, FrameData>, s: Ssid): (map<Ssid, FrameData>, Option<FrameData>) {
    if s in m then (m - {s}, Some(m[s])) else (m, None)
  }

  // ----------------------------------------------------------------- refinement

  /** A push goes to the slot with its SSID, or else to a hole if there is one. */
  lemma {:induction false} SlotFromFinds(fs: Slots, i: nat, hole: Option<nat>, s: Ssid)
    requires i <= |fs| && (hole.Some? ==> hole.value < i && fs[hole.value].None?)
    requires forall k: nat :: k < i ==> !HasAt(fs, k, s)
    requires hole.None? ==> forall k :: 0 <= k < i ==> fs[k].Some?
    ensures match SlotFrom(fs, i, hole, s)
            case Some(j) => HasAt(fs, j, s) || (fs[j].None? && forall k: nat :: !HasAt(fs, k, s))
            case None => (forall k: nat :: !HasAt(fs, k, s)) && forall k :: 0 <= k < |fs| ==> fs[k].Some?
    decreases |fs| - i
  {
    if i < |fs| && !HasAt(fs, i, s) {
      SlotFromFinds(fs, i + 1, if fs[i].None? then Some(i) else hole, s);
    }
  }

  lemma {:induction false} IndexFromFinds(fs: Slots, i: nat, s: Ssid)
    requires i <= |fs|
    ensures var k := IndexFrom(fs, i, s);
      (k < |fs| ==> HasAt(fs, k, s)) && forall j :: i <= j < k ==> !HasAt(fs, j, s)
    decreases |fs| - i
  {
    if i < |fs| && !HasAt(fs, i, s) { IndexFromFinds(fs, i + 1, s); }
  }

  function Holes(fs: Slots): nat {
    if fs == [] then 0 else (if fs[0].None? then 1 else 0) + Holes(fs[1..])
  }

  lemma {:induction false} InMap(fs: Slots, s: Ssid)
    requires NoDuplicates(fs)
    ensures s in AsMap(fs) <==> exists i: nat :: HasAt(fs, i, s)
    ensures forall i: nat :: HasAt(fs, i, s) ==> AsMap(fs)[s] == fs[i].value
  {
    if fs != [] {
      var rest := fs[1..];
      TailHasNoDuplicates(fs);
      InMap(rest, s);
      forall i: nat | HasAt(fs, i, s)
        ensures s in AsMap(fs) && AsMap(fs)[s] == fs[i].value
      {
        if i > 0 { assert HasAt(rest, i - 1, s) && !HasAt(fs, 0, s); }
      }
      if i: nat :| HasAt(rest, i, s) { assert HasAt(fs, i + 1, s); }
      if s in Entry(fs[0]) { assert HasAt(fs, 0, s); }
    }
  }

  lemma TailHasNoDuplicates(fs: Slots)
    requires fs != [] && NoDuplicates(fs)
    ensures NoDuplicates(fs[1..])
  {
    var rest := fs[1..];
    assert forall i :: 0 <= i < |rest| ==> rest[i] == fs[i + 1];
  }

  /** The map has as many entries as there are slots without a hole. */
  lemma {:induction false} MapSize(fs: Slots)
    requires NoDuplicates(fs)
    ensures |AsMap(fs)| + Holes(fs) == |fs|
  {
    if fs != [] {
      var rest := fs[1..];
      TailHasNoDuplicates(fs);
      MapSize(rest);
      if fs[0].Some? {
        var s := fs[0].value.ssid;
        InMap(rest, s);
        forall i: nat ensures !HasAt(rest, i, s) {
          if i < |rest| { assert rest[i] == fs[i + 1]; }
        }
        assert AsMap(fs).Keys == AsMap(rest).Keys + {s};
        assert |AsMap(fs)| == |AsMap(fs).Keys| && |AsMap(rest)| == |AsMap(rest).Keys|;
      } else {
        assert AsMap(fs) == AsMap(rest);
      }
    }
  }

  lemma {:induction false} HoleMeansRoom(fs: Slots)
    ensures Holes(fs) > 0 <==> exists i :: 0 <= i < |fs| && fs[i].None?
  {
    if fs != [] {
      HoleMeansRoom(fs[1..]);
      if i :| 0 <= i < |fs[1..]| && fs[1..][i].None? { assert fs[i + 1].None?; }
      if i :| 0 < i < |fs| && fs[i].None? { assert fs[1..][i - 1].None?; }
    }
  }

  /** Writing one slot: the map follows, if the SSID written is in no other slot. */
  lemma WriteSlot(fs: Slots, i: nat, d: Option<FrameData>, s: Ssid)
    requires NoDuplicates(fs) && i < |fs|
    requires d.Some? ==> forall k: nat :: HasAt(fs, k, d.value.ssid) ==> k == i
    ensures NoDuplicates(fs[i := d])
    ensures s in AsMap(fs[i := d]) <==> s in Entry(d) || (s in AsMap(fs) && !HasAt(fs, i, s))
    ensures s in AsMap(fs[i := d]) ==> AsMap(fs[i := d])[s] == if s in Entry(d) then d.value else AsMap(fs)[s]
  {
    var gs := fs[i := d];
    WriteKeepsNoDuplicates(fs, i, d);
    InMap(fs, s);
    InMap(gs, s);
    if s in AsMap(gs) {
      var k: nat :| HasAt(gs, k, s);
      assert k != i ==> HasAt(fs, k, s);
    }
    if s in AsMap(fs) {
      var k: nat :| HasAt(fs, k, s);
      assert k != i ==> HasAt(gs, k, s);
    }
    if s in Entry(d) { assert HasAt(gs, i, s); }
  }

  lemma WriteKeepsNoDuplicates(fs: Slots, i: nat, d: Option<FrameData>)
    requires NoDuplicates(fs) && i < |fs|
    requires d.Some? ==> forall k: nat :: HasAt(fs, k, d.value.ssid) ==> k == i
    ensures NoDuplicates(fs[i := d])
  {
    var gs := fs[i := d];
    forall j, k | 0 <= j < k < |gs| && gs[j].Some? && gs[k].Some?
      ensures gs[j].value.ssid != gs[k].value.ssid
    {
      assert i != j ==> HasAt(fs, j, gs[j].value.ssid);
      assert i != k ==> HasAt(fs, k, gs[k].value.ssid);
    }
  }

  lemma WriteMap(fs: Slots, i: nat, d: FrameData)
    requires NoDuplicates(fs) && i < |fs| && (fs[i].None? || HasAt(fs, i, d.ssid))
    requires forall k: nat :: HasAt(fs, k, d.ssid) ==> k == i
    ensures AsMap(fs[i := Some(d)]) == AsMap(fs)[d.ssid := d]
  {
    var m, n := AsMap(fs)[d.ssid := d], AsMap(fs[i := Some(d)]);
    forall s: Ssid
      ensures s in n <==> s in m
      ensures s in n ==> n[s] == m[s]
    {
      WriteSlot(fs, i, Some(d), s);
    }
  }

  lemma EraseMap(fs: Slots, i: nat, s: Ssid)
    requires NoDuplicates(fs) && HasAt(fs, i, s)
    ensures AsMap(fs[i := None]) == AsMap(fs) - {s}
  {
    var m, n := AsMap(fs) - {s}, AsMap(fs[i := None]);
    forall t: Ssid
      ensures t in n <==> t in m
      ensures t in n ==> n[t] == m[t]
    {
      WriteSlot(fs, i, None, t);
    }
  }

  /** A push does to the slots what it does to a map with as much room as there are slots. */
  lemma PushRefines(fs: Slots, d: FrameData)
    requires NoDuplicates(fs)
    ensures var (gs, back) := Push(fs, d);
      |gs| == |fs| && NoDuplicates(gs) && (AsMap(gs), back) == PushMap(AsMap(fs), |fs|, d)
  {
    SlotFromFinds(fs, 0, None, d.ssid);
    InMap(fs, d.ssid);
    MapSize(fs);
    HoleMeansRoom(fs);
    match SlotFrom(fs, 0, None, d.ssid)
    case Some(i) =>
      WriteKeepsNoDuplicates(fs, i, Some(d));
      WriteMap(fs, i, d);
    case None =>
  }

  /** A pop does to the slots what it does to the map. */
  lemma PopRefines(fs: Slots, s: Ssid)
    requires NoDuplicates(fs)
    ensures var (gs, d) := Pop(fs, s);
      |gs| == |fs| && NoDuplicates(gs) && (AsMap(gs), d) == PopMap(AsMap(fs), s)
  {
    IndexFromFinds(fs, 0, s);
    InMap(fs, s);
    var k := IndexFrom(fs, 0, s);
    if k < |fs| {
      WriteKeepsNoDuplicates(fs, k, None);
      EraseMap(fs, k, s);
    }
  }

  lemma {:induction false} WriteStored(fs: Slots, i: nat, d: Option<FrameData>)
    requires i < |fs|
    ensures Stored(fs[i := d]) + OneOrNone(fs[i]) == Stored(fs) + OneOrNone(d)
  {
    var rest, gs := fs[1..], fs[i := d];
    if i == 0 {
      assert gs[1..] == rest;
      Exchange(OneOrNone(d), Stored(rest), OneOrNone(fs[0]));
    } else {
      assert gs[1..] == rest[i - 1 := d] && gs[0] == fs[0];
      WriteStored(rest, i - 1, d);
      ReplaceBehind(OneOrNone(fs[0]), Stored(gs[1..]), OneOrNone(fs[i]), Stored(rest), OneOrNone(d));
    }
  }

  /** A push keeps or gives back what is stored and what is pushed. */
  lemma PushConserves(fs: Slots, d: FrameData)
    ensures var (gs, back) := Push(fs, d); Stored(gs) + OneOrNone(back) == Stored(fs) + multiset{d}
  {
    match SlotFrom(fs, 0, None, d.ssid)
    case Some(i) => WriteStored(fs, i, Some(d));
    case None =>
  }

  /** A pop gives away what it takes out. */
  lemma PopConserves(fs: Slots, s: Ssid)
    ensures var (gs, out) := Pop(fs, s); Stored(gs) + OneOrNone(out) == Stored(fs)
  {
    var k := IndexFrom(fs, 0, s);
    if k < |fs| { WriteStored(fs, k, None); }
  }

  /** What is in the slots, in slot order. */
  function Occupants(fs: Slots): seq<FrameData> {
    if fs == [] then []
    else
      var front := Occupants(fs[..|fs| - 1]);
      match fs[|fs| - 1]
      case Some(d) => front + [d]
      case None => front
  }

  lemma OccupantsOfNext(fs: Slots, i: nat)
    requires i < |fs|
    ensures Occupants(fs[..i + 1]) == if fs[i].Some? then Occupants(fs[..i]) + [fs[i].value] else Occupants(fs[..i])
  {
    assert fs[..i + 1][..i] == fs[..i];
  }

  lemma {:induction false} OccupantsAreStored(fs: Slots)
    ensures multiset(Occupants(fs)) == Stored(fs)
  {
    if fs != [] {
      var n := |fs| - 1;
      OccupantsAreStored(fs[..n]);
      StoredOfSnoc(fs[..n], fs[n]);
      assert fs == fs[..n] + [fs[n]];
    }
  }

  lemma {:induction false} StoredOfSnoc(fs: Slots, f: Option<FrameData>)
    ensures Stored(fs + [f]) == Stored(fs) + OneOrNone(f)
  {
    if fs == [] {
      assert [] + [f] == [f] && [f][1..] == [];
    } else {
      assert (fs + [f])[1..] == fs[1..] + [f];
      StoredOfSnoc(fs[1..], f);
    }
  }

  // ----------------------------------------------------------------------- runs

  datatype Op = PushOp(d: FrameData) | PopOp(s: Ssid)

  function Apply(fs: Slots, op: Op): (Slots, Option<FrameData>) {
    match op
    case PushOp(d) => Push(fs, d)
    case PopOp(s) => Pop(fs, s)
  }

  function ApplyMap(m: map<Ssid, FrameData>, cap: nat, op: Op): (map<Ssid, FrameData>, Option<FrameData>) {
    match op
    case PushOp(d) => PushMap(m, cap, d)
    case PopOp(s) => PopMap(m, s)
  }

  /** The slots after a run of calls and what each call returned. */
  function Run(fs: Slots, ops: seq<Op>): (Slots, seq<Option<FrameData>>)
    decreases |ops|
  {
    if ops == [] then (fs, [])
    else
      var (gs, out) := Apply(fs, ops[0]);
      var (hs, outs) := Run(gs, ops[1..]);
      (hs, [out] + outs)
  }

  function RunMap(m: map<Ssid, FrameData>, cap: nat, ops: seq<Op>): (map<Ssid, FrameData>, seq<Option<FrameData>>)
    decreases |ops|
  {
    if ops == [] then (m, [])
    else
      var (n, out) := ApplyMap(m, cap, ops[0]);
      var (l, outs) := RunMap(n, cap, ops[1..]);
      (l, [out] + outs)
  }

  function OpPushes(op: Op): multiset<FrameData> {
    match op
    case PushOp(d) => multiset{d}
    case PopOp(_) => multiset{}
  }

  function Pushed(ops: seq<Op>): multiset<FrameData> {
    if ops == [] then multiset{} else OpPushes(ops[0]) + Pushed(ops[1..])
  }

  lemma ApplyRefines(fs: Slots, op: Op)
    requires NoDuplicates(fs)
    ensures var (gs, out) := Apply(fs, op);
      |gs| == |fs| && NoDuplicates(gs) && (AsMap(gs), out) == ApplyMap(AsMap(fs), |fs|, op)
  {
    match op
    case PushOp(d) => PushRefines(fs, d);
    case PopOp(s) => PopRefines(fs, s);
  }

  lemma ApplyConserves(fs: Slots, op: Op)
    ensures var (gs, out) := Apply(fs, op); Stored(gs) + OneOrNone(out) == Stored(fs) + OpPushes(op)
  {
    match op
    case PushOp(d) => PushConserves(fs, d);
    case PopOp(s) => PopConserves(fs, s);
  }

  /** Over every run the slots behave like the bounded map: same contents, same answers, no
      duplicates. */
  lemma {:induction false} RunRefines(fs: Slots, ops: seq<Op>)
    requires NoDuplicates(fs)
    ensures var (gs, outs) := Run(fs, ops);
      |gs| == |fs| && NoDuplicates(gs) && (AsMap(gs), outs) == RunMap(AsMap(fs), |fs|, ops) && |AsMap(gs)| <= |fs|
    decreases |ops|
  {
    if ops == [] {
      MapSize(fs);
    } else {
      var (gs, out) := Apply(fs, ops[0]);
      ApplyRefines(fs, ops[0]);
      RunRefines(gs, ops[1..]);
    }
  }

  /** Over every run, what was stored or pushed is stored or has been given back, once. */
  lemma {:induction false} RunConserves(fs: Slots, ops: seq<Op>)
    ensures var (gs, outs) := Run(fs, ops); Stored(gs) + Stored(outs) == Stored(fs) + Pushed(ops)
    decreases |ops|
  {
    if ops != [] {
      var (gs, out) := Apply(fs, ops[0]);
      var (hs, outs) := Run(gs, ops[1..]);
      ApplyConserves(fs, ops[0]);
      RunConserves(gs, ops[1..]);
      assert ([out] + outs)[1..] == outs;
      Chain(Stored(hs), OneOrNone(out), Stored(outs), Stored(gs), Pushed(ops[1..]), Stored(fs), OpPushes(ops[0]));
    }
  }

  /** A list as it is created, new or recycled, is an empty map: from there every run is one of the
      bounded map, and it has given back all that was pushed and is not stored. */
  lemma {:induction false} RunFromCreation(fs: Slots, ops: seq<Op>)
    requires forall i :: 0 <= i < |fs| ==> fs[i] == None
    ensures var (gs, outs) := Run(fs, ops);
      && NoDuplicates(gs) && (AsMap(gs), outs) == RunMap(map[], |fs|, ops)
      && Stored(gs) + Stored(outs) == Pushed(ops)
  {
    HolesHoldNothing(fs);
    RunRefines(fs, ops);
    RunConserves(fs, ops);
  }

  lemma {:induction false} HolesHoldNothing(fs: Slots)
    requires forall i :: 0 <= i < |fs| ==> fs[i] == None
    ensures AsMap(fs) == map[] && Stored(fs) == multiset{}
  {
    if fs != [] { HolesHoldNothing(fs[1..]); }
  }

  lemma Chain(h: multiset<FrameData>, o: multiset<FrameData>, os: multiset<FrameData>, g: multiset<FrameData>,
              ps: multiset<FrameData>, f: multiset<FrameData>, p: multiset<FrameData>)
    requires h + os == g + ps && g + o == f + p
    ensures h + (o + os) == f + (p + ps)
  {
    assert h + (o + os) == (h + os) + o == (g + o) + ps;
  }

  // ---------------------------------------------------------------------- class

  class FrameList {
    var frames: array<Option<FrameData>>

    predicate AllNone()
      reads this, frames
    {
      forall i :: 0 <= i < frames.Length ==> frames[i] == None
    }

    constructor (numEntries: nat)
      ensures fresh(frames) && frames.Length == numEntries && AllNone()
    {
      frames := new Option<FrameData>[numEntries](_ => None);
    }

    /** ov_frame_data_list_push_data. */
    method PushData(d: FrameData) returns (back: Option<FrameData>)
      modifies frames
      ensures (frames[..], back) == Push(old(frames[..]), d)
    {
      var slot: Option<nat> := None;
      var i := 0;
      while i < frames.Length
        invariant 0 <= i <= frames.Length && (slot.Some? ==> slot.value < frames.Length)
        invariant SlotFrom(frames[..], 0, None, d.ssid) == SlotFrom(frames[..], i, slot, d.ssid)
      {
        if frames[i].None? {
          slot := Some(i);
        } else if frames[i].value.ssid == d.ssid {
          slot := Some(i);
          break;
        }
        i := i + 1;
      }
      assert SlotFrom(frames[..], 0, None, d.ssid) == slot;
      match slot {
        case Some(k) =>
          back := frames[k];
          frames[k] := Some(d);
        case None => back := Some(d);
      }
    }

    /** ov_frame_data_list_pop_data. */
    method PopData(s: Ssid) returns (d: Option<FrameData>)
      modifies frames
      ensures (frames[..], d) == Pop(old(frames[..]), s)
    {
      var i := 0;
      while i < frames.Length && !(frames[i].Some? && frames[i].value.ssid == s)
        invariant 0 <= i <= frames.Length
        invariant IndexFrom(frames[..], 0, s) == IndexFrom(frames[..], i, s)
      {
        i := i + 1;
      }
      d := None;
      if i < frames.Length {
        d := frames[i];
        frames[i] := None;
      }
    }

    /** clear_frame_data_list_nocheck: frees what is stored, slot by slot. */
    method Clear() returns (freed: seq<FrameData>)
      modifies frames
      ensures AllNone() && freed == Occupants(old(frames[..]))
    {
      freed := [];
      ghost var before := frames[..];
      var i := 0;
      while i < frames.Length
        invariant 0 <= i <= frames.Length
        invariant forall k :: 0 <= k < i ==> frames[k] == None
        invariant forall k :: i <= k < frames.Length ==> frames[k] == before[k]
        invariant freed == Occupants(before[..i])
      {
        OccupantsOfNext(before, i);
        if frames[i].Some? {
          freed := freed + [frames[i].value];
          frames[i] := None;
        }
        i := i + 1;
      }
      assert before[..i] == before;
    }
  }

  /** The cache that recycled lists go through. */
  class ListCache {
    const capacity: nat
    var elements: seq<FrameList>
    var freed: multiset<FrameData>

    /** Lists wait in the cache empty, and none is there twice. */
    ghost predicate Valid()
      reads this, elements, set l | l in elements :: l.frames
    {
      && |elements| <= capacity
      && (forall l :: l in elements ==> l.AllNone())
      && (forall i, j :: 0 <= i < j < |elements| ==> elements[i] != elements[j] && elements[i].frames != elements[j].frames)
    }

    constructor (cap: nat)
      ensures Valid() && elements == [] && freed == multiset{}
    {
      capacity, elements, freed := cap, [], multiset{};
    }

    /** ov_frame_data_list_create: a new list, or a recycled one, grown if it is too short. */
    method Create(numEntries: nat) returns (list: FrameList?)
      requires Valid()
      modifies this, elements
      ensures Valid() && freed == old(freed)
      ensures list == null <==> numEntries == 0
      ensures list != null ==> list !in elements && list.AllNone() && list.frames.Length >= numEntries
      ensures list != null ==> forall l :: l in elements ==> l.frames != list.frames
      ensures list != null && old(elements) == [] ==> fresh(list) && list.frames.Length == numEntries
      ensures list == null || old(elements) == [] ==> elements == old(elements)
      ensures list != null && old(elements) != [] ==> old(elements) == elements + [list]
      ensures list != null && old(elements) != [] ==> var last := old(elements)[|old(elements)| - 1];
        list.frames.Length == if numEntries > old(last.frames.Length) then numEntries else old(last.frames.Length)
    {
      if numEntries == 0 {
        return null;
      }
      if elements == [] {
        list := new FrameList(numEntries);
        return;
      }
      var last := |elements| - 1;
      list := elements[last];
      assert list in elements;
      elements := elements[..last];
      assert forall l :: l in elements ==> l in old(elements);
      if numEntries > list.frames.Length {
        list.frames := new Option<FrameData>[numEntries](_ => None);
      }
    }

    /** ov_frame_data_list_free: the list is cleared and goes back to the cache if there is room. */
    method Free(list: FrameList)
      requires Valid() && list !in elements && forall l :: l in elements ==> l.frames != list.frames
      modifies this, list.frames
      ensures Valid() && list.AllNone()
      ensures freed == old(freed) + Stored(old(list.frames[..]))
      ensures elements == if |old(elements)| < capacity then old(elements) + [list] else old(elements)
    {
      ghost var before := list.frames[..];
      var cleared := list.Clear();
      OccupantsAreStored(before);
      freed := freed + multiset(cleared);
      if |elements| < capacity {
        elements := elements + [list];
      }
    }
  }
}
