/** `SemanticCatalog`: gives discovered devices stable references.  A device keeps its id for
    ever; its generation rises when it comes back after an absence or with a new incarnation. */
module Catalog {
  import opened Base
  import opened Domain

  datatype ProviderState = Uninitialized | Ready | ProviderDown | Shutdown

  datatype DeviceState = DeviceUnknown | DeviceReady | DeviceLost | DeviceError

  datatype ProviderEntity = ProviderEntity(
    nativeId: string, pciBdf: string, pdrvVersion: string, incarnation: string, state: DeviceState, manageable: bool)

  datatype Discovery = Discovery(
    version: string, target: Target, state: ProviderState, devices: seq<ProviderEntity>, hasErrors: bool,
    detected: uint32)

  datatype Attribute = Known(value: string) | Missing

  datatype EntityState = StateUnknown | StateReady | StateError

  datatype Record = Record(
    ref: EntityRef, state: EntityState, nativeId: Attribute, pciBdf: Attribute, pdrvVersion: Attribute,
    providerVersion: string, target: Target, itemStatus: Code)

  datatype View = View(generation: uint64, detected: uint32, unsupported: bool, entities: seq<Record>)

  datatype Identity = Identity(id: uint64, generation: uint64, incarnation: string, present: bool)

  /** What one accepted commit publishes about its device. */
  datatype Publication = Publication(ref: EntityRef, key: string, incarnation: string)

  datatype State = State(view: View, identities: map<string, Identity>, nextId: uint64)

  function Empty(): State { State(View(0, 0, false, []), map[], 0) }

  // ----- Identity keys -----

  function TargetDigit(t: Target): string {
    match t case UnknownTarget => "0" case Fpga => "1" case Emu => "2"
  }

  /** `identityKey`: empty when the device lacks a stable identity. */
  function IdentityKey(t: Target, d: ProviderEntity): string {
    if d.nativeId == "" || d.pciBdf == "" then ""
    else TargetDigit(t) + "|" + d.pciBdf + "|" + d.nativeId
  }

  predicate NoBar(s: string) { forall c :: c in s ==> c != '|' }

  lemma {:induction false} CommonPrefix(p: string, x: string, y: string)
    requires p + x == p + y
    ensures x == y
  {
    assert (p + x)[|p|..] == x && (p + y)[|p|..] == y;
  }

  predicate Collide(t: Target, a: ProviderEntity, b: ProviderEntity) {
    IdentityKey(t, a) == IdentityKey(t, b) != ""
  }

  /** Equal keys of devices at different addresses: the shorter address and a bar begin the longer. */
  lemma {:induction false} CollisionNests(t: Target, a: ProviderEntity, b: ProviderEntity)
    requires Collide(t, a, b) && |a.pciBdf| <= |b.pciBdf|
    ensures if a.pciBdf == b.pciBdf then a.nativeId == b.nativeId else a.pciBdf + "|" <= b.pciBdf
  {
    var p := TargetDigit(t) + "|";
    var x, y := a.pciBdf + ("|" + a.nativeId), b.pciBdf + ("|" + b.nativeId);
    assert IdentityKey(t, a) == p + x && IdentityKey(t, b) == p + y;
    CommonPrefix(p, x, y);
    var n := |a.pciBdf|;
    assert x[..n] == a.pciBdf && y[..n] == b.pciBdf[..n];
    if n == |b.pciBdf| {
      assert b.pciBdf[..n] == b.pciBdf;
      CommonPrefix(a.pciBdf, "|" + a.nativeId, "|" + b.nativeId);
      CommonPrefix("|", a.nativeId, b.nativeId);
    } else {
      assert x[n] == '|' && y[n] == b.pciBdf[n];
    }
  }

  function At(bdf: string, nativeId: string): ProviderEntity {
    ProviderEntity(nativeId, bdf, "", "", DeviceReady, true)
  }

  lemma {:induction false} NestedCollide(t: Target, p: string, q: string)
    requires p != "" && p + "|" <= q
    ensures exists m, n :: Collide(t, At(p, m), At(q, n))
  {
    var r := q[|p| + 1..];
    assert q == p + "|" + r;
    assert IdentityKey(t, At(p, r + "|x")) == IdentityKey(t, At(q, "x"));
    assert Collide(t, At(p, r + "|x"), At(q, "x"));
  }

  /** Devices at two different addresses can share a key exactly when one address continues the other
      after a bar; at one address the key determines the native id. */
  lemma {:induction false} KeysCollideIff(t: Target, p: string, q: string)
    requires p != "" && q != "" && p != q
    ensures (exists m, n :: Collide(t, At(p, m), At(q, n))) <==> p + "|" <= q || q + "|" <= p
  {
    if exists m, n :: Collide(t, At(p, m), At(q, n)) {
      var m, n :| Collide(t, At(p, m), At(q, n));
      if |p| <= |q| {
        CollisionNests(t, At(p, m), At(q, n));
      } else {
        CollisionNests(t, At(q, n), At(p, m));
      }
    }
    if p + "|" <= q {
      NestedCollide(t, p, q);
    }
    if q + "|" <= p {
      NestedCollide(t, q, p);
      var n, m :| Collide(t, At(q, n), At(p, m));
      assert Collide(t, At(p, m), At(q, n));
    }
  }

  lemma {:induction false} BarInside(p: string, q: string)
    ensures p + "|" <= q ==> '|' in q
  {
    if p + "|" <= q {
      assert q[|p|] == (p + "|")[|p|] == '|';
    }
  }

  /** So addresses without a bar never share a key ... */
  lemma {:induction false} KeyIsInjective(t: Target, a: ProviderEntity, b: ProviderEntity)
    requires NoBar(a.pciBdf) && NoBar(b.pciBdf) && Collide(t, a, b)
    ensures a.pciBdf == b.pciBdf && a.nativeId == b.nativeId
  {
    if |a.pciBdf| <= |b.pciBdf| {
      CollisionNests(t, a, b);
      BarInside(a.pciBdf, b.pciBdf);
    } else {
      CollisionNests(t, b, a);
      BarInside(b.pciBdf, a.pciBdf);
    }
  }

  /** ... while these two do. */
  lemma {:induction false} KeyCanCollide(t: Target)
    ensures Collide(t, At("a|b", "c"), At("a", "b|c"))
  {
    assert IdentityKey(t, At("a|b", "c")) == IdentityKey(t, At("a", "b|c"));
  }

  // ----- Commit -----

  function Manageable(ds: seq<ProviderEntity>): (r: seq<ProviderEntity>)
    ensures forall d :: d in r <==> d in ds && d.manageable
  {
    if ds == [] then []
    else Manageable(ds[..|ds| - 1]) + if ds[|ds| - 1].manageable then [ds[|ds| - 1]] else []
  }

  function StateOf(s: DeviceState): EntityState {
    match s case DeviceReady => StateReady case DeviceError => StateError case _ => StateUnknown
  }

  function RecordOf(d: Discovery, device: ProviderEntity, ref: EntityRef): Record {
    var pdrv := if device.pdrvVersion == "" then Missing else Known(device.pdrvVersion);
    Record(ref, StateOf(device.state), Known(device.nativeId), Known(device.pciBdf), pdrv, d.version, d.target,
           if !device.state.DeviceReady? || pdrv.Missing? || d.hasErrors then PartialResult else Success)
  }

  function Absent(m: map<string, Identity>): (r: map<string, Identity>)
    ensures r.Keys == m.Keys && forall k :: k in m ==> r[k] == m[k].(present := false)
  {
    map k | k in m :: m[k].(present := false)
  }

  /** The identity of a discovered device after the commit; an error on exhausted counters. */
  function Recognise(s: State, key: string, incarnation: string): Option<Identity> {
    if key !in s.identities then
      if s.nextId == UINT64_MAX then None else Some(Identity(s.nextId, 1, incarnation, true))
    else
      var known := s.identities[key];
      if known.present && known.incarnation == incarnation then Some(known)
      else if known.generation == UINT64_MAX then None
      else Some(Identity(known.id, known.generation + 1, incarnation, true))
  }

  /** The outcome of a commit: a status and, when accepted, the new state and its publication. */
  datatype Outcome = Rejected(code: Code) | Accepted(code: Code, state: State, publication: Option<Publication>)

  function Commit(target: Target, s: State, d: Discovery): Outcome {
    var devices := Manageable(d.devices);
    if d.target != target || !d.state.Ready? || |devices| != d.detected then Rejected(InvalidArgument)
    else if d.detected == 1 && IdentityKey(target, devices[0]) == "" then Rejected(InvalidArgument)
    else if s.view.generation == UINT64_MAX then Rejected(Internal)
    else
      var view := View(s.view.generation + 1, d.detected, 1 < d.detected, []);
      if d.detected != 1 then
        Accepted(if 1 < d.detected then Code.Unsupported else Success,
                 State(view, Absent(s.identities), s.nextId), None)
      else
        var device := devices[0];
        var key := IdentityKey(target, device);
        var identity := Recognise(s, key, device.incarnation);
        if identity.None? then Rejected(Internal)
        else
          var ref := EntityRef(Device, identity.value.id, identity.value.generation);
          var record := RecordOf(d, device, ref);
          Accepted(
            record.itemStatus,
            State(view.(entities := [record]),
                  Absent(s.identities)[key := identity.value],
                  if key in s.identities then s.nextId else s.nextId + 1),
            Some(Publication(ref, key, device.incarnation)))
  }

  function After(target: Target, s: State, d: Discovery): State {
    var o := Commit(target, s, d);
    if o.Accepted? then o.state else s
  }

  // ----- The commit history -----

  /** The publications of the accepted commits, oldest first. */
  type Log = seq<Option<Publication>>

  ghost predicate IdentitiesInv(s: State) {
    && (forall k :: k in s.identities ==> s.identities[k].id < s.nextId && 1 <= s.identities[k].generation)
    && (forall k, l :: k in s.identities && l in s.identities && k != l ==> s.identities[k].id != s.identities[l].id)
  }

  /** A publication belongs to a known identity and is not ahead of it. */
  ghost predicate Tracks(s: State, p: Publication) {
    && p.key in s.identities && p.ref.kind.Device? && p.ref.id == s.identities[p.key].id
    && p.ref.generation <= s.identities[p.key].generation
  }

  /** While its identity is present and has not moved on, a publication has been repeated ever since. */
  ghost predicate Repeated(s: State, log: Log, i: nat)
    requires i < |log| && log[i].Some? && Tracks(s, log[i].value)
  {
    var p := log[i].value;
    var now := s.identities[p.key];
    now.present && p.ref.generation == now.generation ==>
      p.incarnation == now.incarnation && forall k :: i <= k < |log| ==> log[k] == log[i]
  }

  /** Two commits that publish the same reference publish it, unchanged, all the time in between. */
  ghost predicate Continuous(log: Log) {
    forall i, j, k :: && 0 <= i <= k <= j < |log| && log[i].Some? && log[j].Some?
                      && log[i].value.ref == log[j].value.ref ==>
                        log[k] == log[i]
  }

  ghost predicate LogInv(s: State, log: Log) {
    && IdentitiesInv(s)
    && (forall i :: 0 <= i < |log| && log[i].Some? ==> Tracks(s, log[i].value) && Repeated(s, log, i))
    && Continuous(log)
    && s.view.generation == |log|
  }

  /** A reference published before is published again only by the device that never left. */
  lemma {:induction false} SameRefSamePublication(s: State, log: Log, i: nat, key: string, incarnation: string)
    requires LogInv(s, log) && i < |log| && log[i].Some? && Recognise(s, key, incarnation).Some?
    ensures var id := Recognise(s, key, incarnation).value;
            var p := Publication(EntityRef(Device, id.id, id.generation), key, incarnation);
            log[i].value.ref == p.ref ==> log[i].value == p && forall k :: i <= k < |log| ==> log[k] == log[i]
  {
    assert Tracks(s, log[i].value) && Repeated(s, log, i);
  }

  lemma {:induction false} ContinuousExtends(log: Log, next: Option<Publication>)
    requires Continuous(log)
    requires forall i :: 0 <= i < |log| && log[i].Some? && next.Some? && log[i].value.ref == next.value.ref ==>
                           log[i] == next && forall k :: i <= k < |log| ==> log[k] == log[i]
    ensures Continuous(log + [next])
  {
    var all := log + [next];
    forall i, j, k | 0 <= i <= k <= j < |all| && all[i].Some? && all[j].Some? && all[i].value.ref == all[j].value.ref
      ensures all[k] == all[i]
    {
      if j < |log| { assert log[k] == log[i]; }
    }
  }

  lemma {:induction false} RecogniseKeepsIdentities(s: State, key: string, incarnation: string)
    requires IdentitiesInv(s) && Recognise(s, key, incarnation).Some?
    ensures IdentitiesInv(State(s.view, Absent(s.identities)[key := Recognise(s, key, incarnation).value],
                                if key in s.identities then s.nextId else s.nextId + 1))
  {}

  lemma {:induction false} PublishKeepsLog(s: State, log: Log, key: string, incarnation: string, view: View)
    requires LogInv(s, log) && Recognise(s, key, incarnation).Some? && view.generation == s.view.generation + 1
    ensures var id := Recognise(s, key, incarnation).value;
            var next := Some(Publication(EntityRef(Device, id.id, id.generation), key, incarnation));
            LogInv(State(view, Absent(s.identities)[key := id], if key in s.identities then s.nextId else s.nextId + 1),
                   log + [next])
  {
    var id := Recognise(s, key, incarnation).value;
    var p := Publication(EntityRef(Device, id.id, id.generation), key, incarnation);
    var t := State(view, Absent(s.identities)[key := id], if key in s.identities then s.nextId else s.nextId + 1);
    var all := log + [Some(p)];
    RecogniseKeepsIdentities(s, key, incarnation);
    forall i | 0 <= i < |log| && log[i].Some? ensures Tracks(t, all[i].value) && Repeated(t, all, i) {
      SameRefSamePublication(s, log, i, key, incarnation);
      assert Tracks(s, log[i].value);
    }
    forall i | 0 <= i < |log| && log[i].Some? && log[i].value.ref == p.ref
      ensures log[i] == Some(p) && forall k :: i <= k < |log| ==> log[k] == log[i]
    {
      SameRefSamePublication(s, log, i, key, incarnation);
    }
    ContinuousExtends(log, Some(p));
  }

  lemma {:induction false} AbsenceKeepsLog(s: State, log: Log, view: View)
    requires LogInv(s, log) && view.generation == s.view.generation + 1
    ensures LogInv(State(view, Absent(s.identities), s.nextId), log + [None])
  {
    var t := State(view, Absent(s.identities), s.nextId);
    var all := log + [None];
    forall i | 0 <= i < |all| && all[i].Some? ensures Tracks(t, all[i].value) && Repeated(t, all, i) {
      assert Tracks(s, log[i].value);
    }
    ContinuousExtends(log, None);
  }

  lemma {:induction false} CommitKeepsLog(target: Target, s: State, log: Log, d: Discovery)
    requires LogInv(s, log)
    ensures var o := Commit(target, s, d); o.Accepted? ==> LogInv(o.state, log + [o.publication])
  {
    var o := Commit(target, s, d);
    if o.Accepted? {
      if o.publication.Some? {
        PublishKeepsLog(s, log, o.publication.value.key, o.publication.value.incarnation, o.state.view);
      } else {
        AbsenceKeepsLog(s, log, o.state.view);
      }
    }
  }

  /** The state and the publications after a run of discoveries. */
  function Run(target: Target, ds: seq<Discovery>): (State, Log) {
    if ds == [] then (Empty(), [])
    else
      var (s, log) := Run(target, ds[..|ds| - 1]);
      var o := Commit(target, s, ds[|ds| - 1]);
      if o.Accepted? then (o.state, log + [o.publication]) else (s, log)
  }

  lemma {:induction false} RunInv(target: Target, ds: seq<Discovery>)
    ensures LogInv(Run(target, ds).0, Run(target, ds).1)
  {
    if ds != [] {
      RunInv(target, ds[..|ds| - 1]);
      var (s, log) := Run(target, ds[..|ds| - 1]);
      CommitKeepsLog(target, s, log, ds[|ds| - 1]);
    }
  }

  /** In every run of discoveries, accepted or not: if two accepted commits publish the same
      reference, every accepted commit in between publishes it too, for the same identity and
      incarnation; and the generation counts the accepted commits. */
  lemma {:induction false} ReferencesNeverAlias(target: Target, ds: seq<Discovery>, i: nat, k: nat, j: nat)
    requires i <= k <= j < |Run(target, ds).1|
    requires Run(target, ds).1[i].Some? && Run(target, ds).1[j].Some?
    requires Run(target, ds).1[i].value.ref == Run(target, ds).1[j].value.ref
    ensures Run(target, ds).1[k] == Run(target, ds).1[i]
    ensures Run(target, ds).0.view.generation == |Run(target, ds).1|
  {
    RunInv(target, ds);
  }

  // ----- What a reference says -----

  /** The identity keys published so far. */
  function KeysIn(log: Log): set<string> {
    set i | 0 <= i < |log| && log[i].Some? :: log[i].value.key
  }

  /** The last commit published a device under this key and incarnation. */
  predicate Stands(log: Log, key: string, incarnation: string) {
    log != [] && log[|log| - 1].Some? && log[|log| - 1].value.key == key &&
    log[|log| - 1].value.incarnation == incarnation
  }

  /** How often a device has arrived under a key: published when the commit before had not published
      it in the same incarnation. */
  function Arrivals(log: Log, key: string): nat {
    if log == [] then 0
    else
      var n := |log| - 1;
      Arrivals(log[..n], key) +
      if log[n].Some? && log[n].value.key == key && !Stands(log[..n], key, log[n].value.incarnation) then 1 else 0
  }

  /** How many keys had been published before this one first was. */
  function KeysBefore(log: Log, key: string): nat {
    if log == [] then 0
    else
      var n := |log| - 1;
      if key in KeysIn(log[..n]) then KeysBefore(log[..n], key) else |KeysIn(log[..n])|
  }

  /** A publication's reference is what the history of keys and incarnations alone says it is. */
  predicate Told(log: Log, p: Publication) {
    p.ref.kind.Device? && p.ref.id == KeysBefore(log, p.key) && p.ref.generation == Arrivals(log, p.key)
  }

  ghost predicate KeysInv(s: State, log: Log) {
    s.identities.Keys == KeysIn(log) && s.nextId == |KeysIn(log)|
  }

  /** An identity holds what its history says, and is present while its device stands. */
  ghost predicate Remembered(s: State, log: Log, key: string)
    requires key in s.identities
  {
    var known := s.identities[key];
    && known.id == KeysBefore(log, key) && known.generation == Arrivals(log, key)
    && forall incarnation :: known.present && known.incarnation == incarnation <==> Stands(log, key, incarnation)
  }

  ghost predicate AllRemembered(s: State, log: Log) {
    forall key :: key in s.identities ==> Remembered(s, log, key)
  }

  ghost predicate AllTold(log: Log) {
    forall i :: 0 <= i < |log| && log[i].Some? ==> Told(log[..i + 1], log[i].value)
  }

  lemma {:induction false} KeysGrow(log: Log, next: Option<Publication>)
    ensures KeysIn(log + [next]) == KeysIn(log) + if next.Some? then {next.value.key} else {}
  {
    var all := log + [next];
    assert forall i :: 0 <= i < |log| ==> all[i] == log[i];
    assert all[|log|] == next;
  }

  lemma {:induction false} HistoryStep(log: Log, next: Option<Publication>, key: string)
    ensures KeysBefore(log + [next], key) == if key in KeysIn(log) then KeysBefore(log, key) else |KeysIn(log)|
    ensures Arrivals(log + [next], key) ==
            Arrivals(log, key) +
            if next.Some? && next.value.key == key && !Stands(log, key, next.value.incarnation) then 1 else 0
    ensures forall incarnation :: Stands(log + [next], key, incarnation) <==>
                                  next.Some? && next.value.key == key && next.value.incarnation == incarnation
  {
    assert (log + [next])[..|log|] == log;
  }

  lemma {:induction false} UnknownNeverArrived(log: Log, key: string)
    requires key !in KeysIn(log)
    ensures Arrivals(log, key) == 0 && forall incarnation :: !Stands(log, key, incarnation)
  {
    if log != [] {
      var n := |log| - 1;
      assert log[..n] + [log[n]] == log;
      KeysGrow(log[..n], log[n]);
      UnknownNeverArrived(log[..n], key);
    }
  }

  /** What `Recognise` answers is what the history with this publication says. */
  lemma {:induction false} RecogniseTells(s: State, log: Log, p: Publication)
    requires KeysInv(s, log) && (p.key in s.identities ==> Remembered(s, log, p.key)) && p.ref.kind.Device?
    requires Recognise(s, p.key, p.incarnation) == Some(Identity(p.ref.id, p.ref.generation, p.incarnation, true))
    ensures Told(log + [Some(p)], p)
  {
    HistoryStep(log, Some(p), p.key);
    if p.key !in s.identities {
      UnknownNeverArrived(log, p.key);
    }
  }

  lemma {:induction false} NewRemembered(log: Log, p: Publication, t: State)
    requires p.key in t.identities && Told(log + [Some(p)], p)
    requires t.identities[p.key] == Identity(p.ref.id, p.ref.generation, p.incarnation, true)
    ensures Remembered(t, log + [Some(p)], p.key)
  {
    HistoryStep(log, Some(p), p.key);
  }

  lemma {:induction false} OthersRemembered(s: State, log: Log, next: Option<Publication>, t: State, key: string)
    requires key in s.identities && Remembered(s, log, key) && KeysInv(s, log)
    requires (next.Some? ==> next.value.key != key) && key in t.identities
    requires t.identities[key] == s.identities[key].(present := false)
    ensures Remembered(t, log + [next], key)
  {
    HistoryStep(log, next, key);
  }

  lemma {:induction false} ToldGrow(log: Log, next: Option<Publication>)
    requires AllTold(log) && (next.Some? ==> Told(log + [next], next.value))
    ensures AllTold(log + [next])
  {
    var all := log + [next];
    forall i | 0 <= i < |all| && all[i].Some? ensures Told(all[..i + 1], all[i].value) {
      if i < |log| {
        assert all[..i + 1] == log[..i + 1] && all[i] == log[i];
      } else {
        assert all[..i + 1] == all;
      }
    }
  }

  lemma {:induction false} PublishRemembers(s: State, log: Log, p: Publication, t: State)
    requires KeysInv(s, log) && AllRemembered(s, log) && Told(log + [Some(p)], p)
    requires t.identities == Absent(s.identities)[p.key := Identity(p.ref.id, p.ref.generation, p.incarnation, true)]
    ensures AllRemembered(t, log + [Some(p)])
  {
    forall k | k in t.identities ensures Remembered(t, log + [Some(p)], k) {
      if k == p.key {
        NewRemembered(log, p, t);
      } else {
        OthersRemembered(s, log, Some(p), t, k);
      }
    }
  }

  lemma {:induction false} AbsenceRemembers(s: State, log: Log, t: State)
    requires KeysInv(s, log) && AllRemembered(s, log) && t.identities == Absent(s.identities)
    ensures AllRemembered(t, log + [None])
  {
    forall k | k in t.identities ensures Remembered(t, log + [None], k) {
      OthersRemembered(s, log, None, t, k);
    }
  }

  /** `t` and `next` are what an accepted commit leaves of the identities. */
  predicate Follows(s: State, next: Option<Publication>, t: State) {
    if next.None? then t.identities == Absent(s.identities) && t.nextId == s.nextId
    else
      var p := next.value;
      var id := Identity(p.ref.id, p.ref.generation, p.incarnation, true);
      && p.ref.kind.Device? && Recognise(s, p.key, p.incarnation) == Some(id)
      && t.identities == Absent(s.identities)[p.key := id]
      && t.nextId == if p.key in s.identities then s.nextId else s.nextId + 1
  }

  lemma {:induction false} CommitFollows(target: Target, s: State, d: Discovery)
    ensures var o := Commit(target, s, d); o.Accepted? ==> Follows(s, o.publication, o.state)
  {}

  lemma {:induction false} FollowerKeys(s: State, log: Log, next: Option<Publication>, t: State)
    requires KeysInv(s, log) && Follows(s, next, t)
    ensures KeysInv(t, log + [next])
  {
    KeysGrow(log, next);
  }

  lemma {:induction false} FollowerTells(s: State, log: Log, next: Option<Publication>, t: State)
    requires KeysInv(s, log) && AllRemembered(s, log) && Follows(s, next, t)
    ensures AllRemembered(t, log + [next]) && (next.Some? ==> Told(log + [next], next.value))
  {
    if next.Some? {
      RecogniseTells(s, log, next.value);
      PublishRemembers(s, log, next.value, t);
    } else {
      AbsenceRemembers(s, log, t);
    }
  }

  lemma {:induction false} RunTells(target: Target, ds: seq<Discovery>)
    ensures KeysInv(Run(target, ds).0, Run(target, ds).1) && AllRemembered(Run(target, ds).0, Run(target, ds).1)
    ensures AllTold(Run(target, ds).1)
  {
    if ds == [] {
      assert KeysIn([]) == {};
    } else {
      var (s, log) := Run(target, ds[..|ds| - 1]);
      var d := ds[|ds| - 1];
      RunTells(target, ds[..|ds| - 1]);
      if Commit(target, s, d).Accepted? {
        CommitFollows(target, s, d);
        FollowerKeys(s, log, Commit(target, s, d).publication, Commit(target, s, d).state);
        FollowerTells(s, log, Commit(target, s, d).publication, Commit(target, s, d).state);
        ToldGrow(log, Commit(target, s, d).publication);
      }
    }
  }

  /** In every run of discoveries a published reference says this and no more: its id is the number
      of keys that were published before this key first was, its generation is the number of times
      a device has arrived under the key.  Rejected discoveries leave no trace in either. */
  lemma {:induction false} GenerationCountsArrivals(target: Target, ds: seq<Discovery>, i: nat)
    requires i < |Run(target, ds).1| && Run(target, ds).1[i].Some?
    ensures var log := Run(target, ds).1;
            var p := log[i].value;
            && p.ref.kind.Device? && p.ref.id == KeysBefore(log[..i + 1], p.key)
            && p.ref.generation == Arrivals(log[..i + 1], p.key)
  {
    RunTells(target, ds);
    assert Told(Run(target, ds).1[..i + 1], Run(target, ds).1[i].value);
  }

  // ----- Resolving references -----

  /** `resolve`. */
  function Resolve(v: View, ref: EntityRef): (Code, Option<Record>) {
    if !ref.kind.Device? then (InvalidArgument, None)
    else
      var i := PlaceOf(v.entities, ref);
      if i == |v.entities| then (NotFound, None)
      else if v.entities[i].ref.generation != ref.generation then (StaleGeneration, None)
      else (Success, Some(v.entities[i]))
  }

  function PlaceOf(es: seq<Record>, ref: EntityRef): (i: nat)
    ensures i <= |es| && (i < |es| ==> es[i].ref.kind == ref.kind && es[i].ref.id == ref.id)
  {
    if es == [] || (es[0].ref.kind == ref.kind && es[0].ref.id == ref.id) then 0 else 1 + PlaceOf(es[1..], ref)
  }

  /** After a commit that published `p`, a device reference resolves exactly when it is `p`'s, and is
      reported stale exactly when it names the same device in another generation. */
  lemma {:induction false} ResolveAfterCommit(target: Target, s: State, d: Discovery, ref: EntityRef)
    requires Commit(target, s, d).Accepted? && ref.kind.Device?
    ensures var o := Commit(target, s, d);
            var r := Resolve(o.state.view, ref).0;
            && (r.Success? <==> o.publication.Some? && o.publication.value.ref == ref)
            && (r.StaleGeneration? <==>
                  o.publication.Some? && o.publication.value.ref.id == ref.id &&
                  o.publication.value.ref.generation != ref.generation)
  {
    var o := Commit(target, s, d);
    if o.publication.Some? {
      assert PlaceOf(o.state.view.entities[1..], ref) == 0;
    }
  }

  class SemanticCatalog {
    const target: Target
    var view: View
    var identities: map<string, Identity>
    var nextId: uint64
    ghost var log: Log

    constructor (target: Target)
      ensures Contents() == Empty() && log == [] && this.target == target && Valid()
    {
      this.target := target;
      view, identities, nextId, log := View(0, 0, false, []), map[], 0, [];
    }

    ghost function Contents(): State
      reads this
    {
      State(view, identities, nextId)
    }

    ghost predicate Valid()
      reads this
    {
      LogInv(Contents(), log)
    }

    method SelectManageable(ds: seq<ProviderEntity>) returns (r: seq<ProviderEntity>)
      ensures r == Manageable(ds)
    {
      r := [];
      for i := 0 to |ds|
        invariant r == Manageable(ds[..i])
      {
        assert ds[..i + 1][..i] == ds[..i];
        if ds[i].manageable {
          r := r + [ds[i]];
        }
      }
      assert ds[..|ds|] == ds;
    }

    method RecogniseDevice(key: string, incarnation: string) returns (identity: Option<Identity>)
      ensures identity == Recognise(Contents(), key, incarnation)
    {
      if key !in identities {
        if nextId == UINT64_MAX {
          return None;
        }
        return Some(Identity(nextId, 1, incarnation, true));
      }
      var known := identities[key];
      var generation := known.generation;
      if !known.present || known.incarnation != incarnation {
        if generation == UINT64_MAX {
          return None;
        }
        generation := generation + 1;
      }
      return Some(Identity(known.id, generation, incarnation, true));
    }

    /** The checks of `commit` and the state it prepares, before anything is installed. */
    method Stage(d: Discovery) returns (status: Code, committed: bool, next: State)
      ensures var o := Commit(target, Contents(), d);
              (committed <==> o.Accepted?) && status == o.code && (committed ==> next == o.state)
    {
      next := State(view, identities, nextId);
      var devices := SelectManageable(d.devices);
      if d.target != target || !d.state.Ready? || |devices| != d.detected {
        return InvalidArgument, false, next;
      }
      if d.detected == 1 && IdentityKey(target, devices[0]) == "" {
        return InvalidArgument, false, next;
      }
      if view.generation == UINT64_MAX {
        return Internal, false, next;
      }
      next := State(View(view.generation + 1, d.detected, 1 < d.detected, []), Absent(identities), nextId);
      status, committed := Success, true;
      if d.detected == 1 {
        var device := devices[0];
        var key := IdentityKey(target, device);
        var recognised := RecogniseDevice(key, device.incarnation);
        if recognised.None? {
          return Internal, false, next;
        }
        var identity := recognised.value;
        var record := RecordOf(d, device, EntityRef(Device, identity.id, identity.generation));
        next := State(next.view.(entities := [record]), next.identities[key := identity],
                      if key in identities then nextId else nextId + 1);
        status := record.itemStatus;
      } else if 1 < d.detected {
        status := Code.Unsupported;
      }
    }

    method Install(next: State, ghost publication: Option<Publication>)
      modifies this
      ensures Contents() == next && log == old(log) + [publication]
    {
      view, identities, nextId, log := next.view, next.identities, next.nextId, log + [publication];
    }

    /** `commit`. */
    method CommitDiscovery(d: Discovery) returns (status: Code, committed: bool)
      requires Valid()
      modifies this
      ensures Valid()
      ensures committed <==> Commit(target, old(Contents()), d).Accepted?
      ensures status == Commit(target, old(Contents()), d).code
      ensures Contents() == After(target, old(Contents()), d)
      ensures log == if committed then old(log) + [Commit(target, old(Contents()), d).publication] else old(log)
    {
      CommitKeepsLog(target, Contents(), log, d);
      var next;
      status, committed, next := Stage(d);
      if committed {
        Install(next, Commit(target, Contents(), d).publication);
      }
    }
  }
}
