/** What the data store keeps of one key, and what it is told against: the plain log of committed
    observations. */
module DataLog {
  import opened Base
  import opened Domain

  function KeyOf(o: Observation): DataKey { DataKey(o.entity, o.metric) }

  /** The committed observations of one key, in commit order. */
  function LogOf(log: seq<Observation>, k: DataKey): seq<Observation> {
    if log == [] then []
    else
      var n := |log| - 1;
      LogOf(log[..n], k) + if KeyOf(log[n]) == k then [log[n]] else []
  }

  function Valids(l: seq<Observation>): seq<Observation> {
    if l == [] then []
    else
      var n := |l| - 1;
      Valids(l[..n]) + if l[n].status.Valid? then [l[n]] else []
  }

  function LastOf(l: seq<Observation>): Option<Observation> { if l == [] then None else Some(l[|l| - 1]) }

  predicate Rising(l: seq<Observation>) {
    forall i, j :: 0 <= i < j < |l| ==> l[i].observedTime <= l[j].observedTime
  }

  lemma {:induction false} LogOfStep(log: seq<Observation>, o: Observation, k: DataKey)
    ensures LogOf(log + [o], k) == LogOf(log, k) + if KeyOf(o) == k then [o] else []
  {
    assert (log + [o])[..|log|] == log;
  }

  lemma {:induction false} ValidsStep(l: seq<Observation>, o: Observation)
    ensures Valids(l + [o]) == Valids(l) + if o.status.Valid? then [o] else []
  {
    assert (l + [o])[..|l|] == l;
  }

  lemma {:induction false} LogOfMembers(log: seq<Observation>, k: DataKey, o: Observation)
    requires o in LogOf(log, k)
    ensures o in log && KeyOf(o) == k
  {
    var n := |log| - 1;
    if o in LogOf(log[..n], k) {
      LogOfMembers(log[..n], k, o);
    }
  }

  lemma {:induction false} ValidsMembers(l: seq<Observation>, o: Observation)
    ensures o in Valids(l) <==> o in l && o.status.Valid?
  {
    if l != [] {
      ValidsMembers(l[..|l| - 1], o);
      assert l == l[..|l| - 1] + [l[|l| - 1]];
    }
  }

  // ----- One entry -----

  datatype HistoryLimits = HistoryLimits(maxSamples: positive, maxDuration: positive)

  datatype Entry = Entry(latest: Observation, lastValid: Option<Observation>, history: seq<Observation>)

  ghost predicate Suffix(h: seq<Observation>, s: seq<Observation>) {
    |h| <= |s| && h == s[|s| - |h|..]
  }

  /** Sample `i` is within both history limits, seen from the last one. */
  ghost predicate InWindow(lim: HistoryLimits, v: seq<Observation>, i: nat)
    requires i < |v|
  {
    |v| - i <= lim.maxSamples && v[|v| - 1].observedTime - v[i].observedTime <= lim.maxDuration
  }

  ghost predicate WithinLimits(lim: HistoryLimits, h: seq<Observation>) {
    forall i :: 0 <= i < |h| ==> InWindow(lim, h, i)
  }

  /** The samples from `a` on are kept: all of them are within the limits, and whatever else is within
      the limits has been evicted for space. */
  ghost predicate KeptFrom(lim: HistoryLimits, v: seq<Observation>, a: nat, gone: seq<Observation>) {
    && a <= |v|
    && (forall i :: a <= i < |v| ==> InWindow(lim, v, i))
    && (forall i :: 0 <= i < a && InWindow(lim, v, i) ==> v[i] in gone)
  }

  /** An entry tells the end of its key's log: the last observation, the last valid one, and of the
      valid ones those still within both history limits, except for what is `gone`. */
  ghost predicate Tells(lim: HistoryLimits, e: Entry, l: seq<Observation>, gone: seq<Observation>) {
    && l != [] && Rising(l) && e.latest == l[|l| - 1] && e.lastValid == LastOf(Valids(l))
    && Suffix(e.history, Valids(l)) && KeptFrom(lim, Valids(l), |Valids(l)| - |e.history|, gone)
  }

  /** Entry `e` of a key whose log is `l`: there is one exactly when something was committed. */
  ghost predicate EntryInv(lim: HistoryLimits, e: Option<Entry>, l: seq<Observation>, gone: seq<Observation>) {
    if e.None? then l == [] else Tells(lim, e.value, l, gone)
  }

  function DropLong(h: seq<Observation>, n: nat): seq<Observation> { if |h| <= n then h else h[|h| - n..] }

  function DropOld(h: seq<Observation>, now: int, d: int): seq<Observation> {
    if h != [] && now - h[0].observedTime > d then DropOld(h[1..], now, d) else h
  }

  /** The effect of one observation on the entry of its key. */
  function Update(lim: HistoryLimits, e: Option<Entry>, o: Observation): Entry {
    var valid, h := if e.Some? then e.value.lastValid else None, if e.Some? then e.value.history else [];
    if o.status.Valid?
    then Entry(o, Some(o), DropOld(DropLong(h + [o], lim.maxSamples), o.observedTime, lim.maxDuration))
    else Entry(o, valid, h)
  }

  predicate Backward(e: Option<Entry>, o: Observation) {
    e.Some? && o.observedTime < e.value.latest.observedTime
  }

  /** The two trimming loops of `commit`. */
  method TrimHistory(lim: HistoryLimits, h: seq<Observation>, now: int) returns (r: seq<Observation>)
    ensures r == DropOld(DropLong(h, lim.maxSamples), now, lim.maxDuration)
  {
    r := h;
    while |r| > lim.maxSamples
      invariant DropLong(r, lim.maxSamples) == DropLong(h, lim.maxSamples)
    {
      r := r[1..];
    }
    while r != [] && now - r[0].observedTime > lim.maxDuration
      invariant DropOld(r, now, lim.maxDuration) == DropOld(DropLong(h, lim.maxSamples), now, lim.maxDuration)
      decreases |r|
    {
      r := r[1..];
    }
  }

  lemma {:induction false} DropLongAt(w: seq<Observation>, a: nat, n: nat)
    requires a <= |w|
    ensures DropLong(w[a..], n) == w[Max(a, |w| - n)..]
  {}

  /** `DropOld` drops samples that are too old up to one that is not. */
  lemma {:induction false} DropOldAt(w: seq<Observation>, b: nat, now: int, d: int) returns (c: nat)
    requires b <= |w|
    ensures b <= c <= |w| && DropOld(w[b..], now, d) == w[c..]
    ensures forall i :: b <= i < c ==> now - w[i].observedTime > d
    ensures c < |w| ==> now - w[c].observedTime <= d
    decreases |w| - b
  {
    c := b;
    if b < |w| && now - w[b].observedTime > d {
      assert w[b..][1..] == w[b + 1..];
      c := DropOldAt(w, b + 1, now, d);
    }
  }

  lemma {:induction false} RisingStep(l: seq<Observation>, o: Observation)
    requires Rising(l) && (l != [] ==> l[|l| - 1].observedTime <= o.observedTime)
    ensures Rising(l + [o])
  {}

  lemma {:induction false} ValidsRise(l: seq<Observation>)
    requires Rising(l)
    ensures Rising(Valids(l))
    ensures Valids(l) != [] ==> Valids(l)[|Valids(l)| - 1].observedTime <= l[|l| - 1].observedTime
  {
    if l != [] {
      var n := |l| - 1;
      ValidsRise(l[..n]);
      if l[n].status.Valid? {
        assert n != 0 ==> l[..n][n - 1] == l[n - 1];
        RisingStep(Valids(l[..n]), l[n]);
      }
    }
  }

  /** What trimming keeps of the samples `w[a..]` is exactly what is within the limits. */
  lemma {:induction false} TrimIsWindow(lim: HistoryLimits, w: seq<Observation>, a: nat) returns (c: nat)
    requires Rising(w) && a < |w|
    ensures a <= c <= |w|
    ensures DropOld(DropLong(w[a..], lim.maxSamples), w[|w| - 1].observedTime, lim.maxDuration) == w[c..]
    ensures forall i :: a <= i < |w| ==> (InWindow(lim, w, i) <==> c <= i)
  {
    DropLongAt(w, a, lim.maxSamples);
    c := DropOldAt(w, Max(a, |w| - lim.maxSamples), w[|w| - 1].observedTime, lim.maxDuration);
  }

  /** A sample that is within the limits now was so before. */
  lemma {:induction false} WindowShrinks(lim: HistoryLimits, v: seq<Observation>, o: Observation, i: nat)
    requires Rising(v + [o]) && i < |v|
    ensures InWindow(lim, v + [o], i) ==> InWindow(lim, v, i)
  {
    var w := v + [o];
    assert w[|v| - 1] == v[|v| - 1] && w[|v|] == o && w[i] == v[i];
  }

  lemma {:induction false} TrimKeeps(lim: HistoryLimits, h: seq<Observation>, o: Observation, v: seq<Observation>,
                                     gone: seq<Observation>, r: seq<Observation>)
    requires Suffix(h, v) && Rising(v + [o]) && KeptFrom(lim, v, |v| - |h|, gone)
    requires r == DropOld(DropLong(h + [o], lim.maxSamples), o.observedTime, lim.maxDuration)
    ensures Suffix(r, v + [o]) && KeptFrom(lim, v + [o], |v| + 1 - |r|, gone)
  {
    var w, a := v + [o], |v| - |h|;
    assert w[a..] == h + [o];
    var c := TrimIsWindow(lim, w, a);
    assert |r| == |w| - c;
    forall i | 0 <= i < c && InWindow(lim, w, i) ensures w[i] in gone {
      assert i < a;
      WindowShrinks(lim, v, o, i);
      assert v[i] in gone;
    }
  }

  lemma {:induction false} ValidTells(lim: HistoryLimits, h: seq<Observation>, l: seq<Observation>, v: seq<Observation>,
                                      o: Observation, gone: seq<Observation>, r: seq<Observation>)
    requires Rising(l + [o]) && o.status.Valid? && v == Valids(l)
    requires Suffix(h, v) && KeptFrom(lim, v, |v| - |h|, gone)
    requires r == DropOld(DropLong(h + [o], lim.maxSamples), o.observedTime, lim.maxDuration)
    ensures Tells(lim, Entry(o, Some(o), r), l + [o], gone)
  {
    ValidsStep(l, o);
    ValidsRise(l + [o]);
    var w := v + [o];
    assert Valids(l + [o]) == w && LastOf(w) == Some(o);
    TrimKeeps(lim, h, o, v, gone, r);
  }

  lemma {:induction false} FailureTells(lim: HistoryLimits, h: seq<Observation>, l: seq<Observation>,
                                        v: seq<Observation>, o: Observation, gone: seq<Observation>)
    requires Rising(l + [o]) && !o.status.Valid? && v == Valids(l)
    requires Suffix(h, v) && KeptFrom(lim, v, |v| - |h|, gone)
    ensures Tells(lim, Entry(o, LastOf(v), h), l + [o], gone)
  {
    ValidsStep(l, o);
    assert v + [] == v;
  }

  /** Committing one more observation keeps an entry in step with its log. */
  lemma {:induction false} UpdateTells(lim: HistoryLimits, e: Option<Entry>, l: seq<Observation>, o: Observation,
                                       gone: seq<Observation>)
    requires EntryInv(lim, e, l, gone) && !Backward(e, o)
    ensures Tells(lim, Update(lim, e, o), l + [o], gone)
  {
    var h := if e.Some? then e.value.history else [];
    RisingStep(l, o);
    if o.status.Valid? {
      ValidTells(lim, h, l, Valids(l), o, gone, Update(lim, e, o).history);
    } else {
      FailureTells(lim, h, l, Valids(l), o, gone);
    }
  }

  /** Evicting the oldest kept sample keeps an entry in step with its log, now that it is gone. */
  lemma {:induction false} EvictTells(lim: HistoryLimits, e: Entry, l: seq<Observation>, gone: seq<Observation>)
    requires Tells(lim, e, l, gone) && e.history != []
    ensures Tells(lim, e.(history := e.history[1..]), l, gone + [e.history[0]])
  {
    var v := Valids(l);
    var a := |v| - |e.history|;
    SuffixTail(e.history, v);
    assert v[a] == e.history[0];
  }

  /** More may be gone elsewhere. */
  lemma {:induction false} MoreGone(lim: HistoryLimits, e: Option<Entry>, l: seq<Observation>, gone: seq<Observation>,
                                    more: seq<Observation>)
    requires EntryInv(lim, e, l, gone)
    ensures EntryInv(lim, e, l, gone + more)
  {}

  lemma {:induction false} SuffixTail(h: seq<Observation>, s: seq<Observation>)
    requires Suffix(h, s) && h != []
    ensures Suffix(h[1..], s)
  {}

  /** What a history returns: a run of consecutive valid commits in time order that ends in the last
      valid one and lies within both limits. */
  lemma {:induction false} HistoryIs(lim: HistoryLimits, e: Entry, l: seq<Observation>, gone: seq<Observation>)
    requires Tells(lim, e, l, gone)
    ensures Rising(e.history) && WithinLimits(lim, e.history)
    ensures e.history != [] ==> e.lastValid == Some(e.history[|e.history| - 1])
  {
    ValidsRise(l);
    var h, v := e.history, Valids(l);
    assert forall i :: 0 <= i < |h| ==> h[i] == v[|v| - |h| + i];
    forall i | 0 <= i < |h| ensures InWindow(lim, h, i) {
      assert InWindow(lim, v, |v| - |h| + i);
    }
  }
}
