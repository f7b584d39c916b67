/** Which discoveries the catalog accepts after any history, and what they publish. */
module CatalogLaws {
  import opened Base
  import opened Domain
  import opened Catalog

  // ----- The one manageable device -----

  function Managed(ds: seq<ProviderEntity>): set<nat> { set i: nat | i < |ds| && ds[i].manageable }

  lemma {:induction false} ManagedStep(ds: seq<ProviderEntity>, n: nat)
    requires |ds| == n + 1
    ensures Managed(ds) == Managed(ds[..n]) + (if ds[n].manageable then {n} else {})
    ensures |Managed(ds)| == |Managed(ds[..n])| + (if ds[n].manageable then 1 else 0)
  {
    assert n !in Managed(ds[..n]);
    assert Managed(ds) == Managed(ds[..n]) + (if ds[n].manageable then {n} else {});
  }

  /** The manageable devices are as many as there are places with one, and one of them is that one. */
  lemma {:induction false} ManageableIs(ds: seq<ProviderEntity>)
    ensures |Manageable(ds)| == |Managed(ds)|
    ensures forall i :: Managed(ds) == {i} ==> Manageable(ds) == [ds[i]]
  {
    if ds == [] {
      assert Managed(ds) == {};
    } else {
      var n := |ds| - 1;
      ManageableIs(ds[..n]);
      ManagedStep(ds, n);
    }
    forall i | Managed(ds) == {i} ensures Manageable(ds) == [ds[i]] {
      assert i in Managed(ds);
      OnlyOne(ds, i);
    }
  }

  lemma {:induction false} OnlyOne(ds: seq<ProviderEntity>, i: nat)
    requires |Manageable(ds)| == 1 && i < |ds| && ds[i].manageable
    ensures Manageable(ds) == [ds[i]]
  {
    assert ds[i] in Manageable(ds);
  }

  // ----- Acceptance -----

  /** A device that can be given a reference after this history: it has an address and a native id, and the
      counter its reference needs is not used up. */
  ghost predicate Nameable(target: Target, log: Log, device: ProviderEntity) {
    var key := IdentityKey(target, device);
    && device.pciBdf != "" && device.nativeId != ""
    && (key !in KeysIn(log) ==> |KeysIn(log)| < UINT64_MAX)
    && (key in KeysIn(log) && !Stands(log, key, device.incarnation) ==> Arrivals(log, key) < UINT64_MAX)
  }

  /** A complete and ready discovery of the right target. */
  predicate Complete(target: Target, d: Discovery) {
    d.target == target && d.state.Ready? && |Managed(d.devices)| == d.detected
  }

  /** It is accepted if, moreover, there is a next generation and a single device can be given a reference. */
  ghost predicate Acceptable(target: Target, log: Log, d: Discovery) {
    && Complete(target, d) && |log| < UINT64_MAX
    && (d.detected == 1 ==> forall i :: i in Managed(d.devices) ==> Nameable(target, log, d.devices[i]))
  }

  /** What the history says about the next publication of a device under `key`. */
  ghost predicate NextRef(log: Log, key: string, incarnation: string, id: nat, generation: nat) {
    && id == (if key in KeysIn(log) then KeysBefore(log, key) else |KeysIn(log)|)
    && generation == Arrivals(log, key) + (if Stands(log, key, incarnation) then 0 else 1)
  }

  /** Whether a device is recognised, and as what, follows from the history. */
  lemma {:induction false} RecogniseIs(s: State, log: Log, key: string, incarnation: string)
    requires KeysInv(s, log) && (key in s.identities ==> Remembered(s, log, key))
    ensures Recognise(s, key, incarnation).Some? <==>
            && (key !in KeysIn(log) ==> |KeysIn(log)| < UINT64_MAX)
            && (key in KeysIn(log) && !Stands(log, key, incarnation) ==> Arrivals(log, key) < UINT64_MAX)
    ensures Recognise(s, key, incarnation).Some? ==>
              var r := Recognise(s, key, incarnation).value;
              r == Identity(r.id, r.generation, incarnation, true) && NextRef(log, key, incarnation, r.id, r.generation)
  {
    if key !in s.identities {
      UnknownNeverArrived(log, key);
    }
  }

  lemma {:induction false} KeyOfDevice(target: Target, device: ProviderEntity)
    ensures IdentityKey(target, device) == "" <==> device.pciBdf == "" || device.nativeId == ""
  {}

  lemma {:induction false} NoDevice(target: Target, s: State, log: Log, d: Discovery)
    requires s.view.generation == |log| && Complete(target, d) && d.detected != 1
    ensures Commit(target, s, d).Accepted? <==> |log| < UINT64_MAX
    ensures Commit(target, s, d).Accepted? ==>
              && Commit(target, s, d).publication.None? && Commit(target, s, d).state.view.entities == []
              && Commit(target, s, d).code == if d.detected == 0 then Success else Code.Unsupported
    ensures Commit(target, s, d).Rejected? ==> Commit(target, s, d).code == Internal
  {
    ManageableIs(d.devices);
  }

  /** What a discovery of one device publishes. */
  ghost predicate Publishes(target: Target, log: Log, d: Discovery, device: ProviderEntity, o: Outcome)
    requires o.Accepted?
  {
    && o.publication.Some? && |o.state.view.entities| == 1
    && var p, r := o.publication.value, o.state.view.entities[0];
       && p.key == IdentityKey(target, device) && p.incarnation == device.incarnation && p.ref.kind.Device?
       && NextRef(log, p.key, p.incarnation, p.ref.id, p.ref.generation) && r.ref == p.ref
       && r.nativeId == Known(device.nativeId) && r.pciBdf == Known(device.pciBdf)
       && r.pdrvVersion == (if device.pdrvVersion == "" then Missing else Known(device.pdrvVersion))
       && (r.state.StateReady? <==> device.state.DeviceReady?) && (r.state.StateError? <==> device.state.DeviceError?)
       && r.providerVersion == d.version && r.target == d.target && r.itemStatus == o.code
       && o.code == (if device.state.DeviceReady? && device.pdrvVersion != "" && !d.hasErrors then Success
                     else PartialResult)
  }

  lemma {:induction false} OneDevice(target: Target, s: State, log: Log, d: Discovery, i: nat)
    requires s.view.generation == |log| && KeysInv(s, log) && AllRemembered(s, log)
    requires Complete(target, d) && d.detected == 1 && Managed(d.devices) == {i} && i < |d.devices|
    ensures Commit(target, s, d).Accepted? <==> |log| < UINT64_MAX && Nameable(target, log, d.devices[i])
    ensures Commit(target, s, d).Accepted? ==> Publishes(target, log, d, d.devices[i], Commit(target, s, d))
    ensures Commit(target, s, d).Rejected? ==>
              Commit(target, s, d).code == if d.devices[i].pciBdf == "" || d.devices[i].nativeId == ""
                                           then InvalidArgument else Internal
  {
    var device := d.devices[i];
    var key := IdentityKey(target, device);
    ManageableIs(d.devices);
    assert Manageable(d.devices) == [device];
    KeyOfDevice(target, device);
    RecogniseIs(s, log, key, device.incarnation);
  }

  lemma {:induction false} TheOne(ds: seq<ProviderEntity>) returns (i: nat)
    requires |Managed(ds)| == 1
    ensures Managed(ds) == {i} && i < |ds|
  {
    i :| i in Managed(ds);
    assert |Managed(ds) - {i}| == 0;
    assert Managed(ds) == {i};
  }

  /** After every run of discoveries, accepted or not, the next one is accepted if and only if it is complete, there
      is a next generation and, with one device, that device can be given a reference; it publishes exactly what the
      history says.  An incomplete or unnameable one is an invalid argument, exhausted counters are internal errors. */
  lemma {:induction false} NextDiscovery(target: Target, ds: seq<Discovery>, d: Discovery)
    ensures var log, o := Run(target, ds).1, Commit(target, Run(target, ds).0, d);
            && (o.Accepted? <==> Acceptable(target, log, d))
            && (!Complete(target, d) ==> o == Rejected(InvalidArgument))
            && (o.Accepted? && d.detected != 1 ==>
                  o.publication.None? && o.code == if d.detected == 0 then Success else Code.Unsupported)
            && (o.Accepted? && d.detected == 1 ==>
                  forall i :: i in Managed(d.devices) ==> Publishes(target, log, d, d.devices[i], o))
            && (o.Rejected? && Complete(target, d) ==>
                  o.code == if d.detected == 1 && exists i :: i in Managed(d.devices) &&
                                                              (d.devices[i].pciBdf == "" || d.devices[i].nativeId == "")
                            then InvalidArgument else Internal)
  {
    var (s, log) := Run(target, ds);
    RunInv(target, ds);
    RunTells(target, ds);
    ManageableIs(d.devices);
    if Complete(target, d) {
      if d.detected == 1 {
        var i := TheOne(d.devices);
        OneDevice(target, s, log, d, i);
      } else {
        NoDevice(target, s, log, d);
      }
    }
  }
}
