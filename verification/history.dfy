/** The card's one-step history record (`this._data`) and the transition a
    render applies to it: `_getInitialDataState`, `_validateEntities`,
    `_getCurrentState`, `_updateCurrentData` and the history shift of
    `_updateData` (src/sugartv-card.js:41-51, 166-257). The record is an
    immutable value here; each render maps the old record to a new one. */
module History {
  import opened Basics
  import opened Values

  const MgDl := "mg/dL"
  const MmolL := "mmol/L"

  datatype Reading = Reading(
    value: Value,
    lastChanged: Stamp,
    trend: Option<string>,
    unit: Option<string>,
    previousValue: Value,
    previousLastChanged: Stamp,
    previousTrend: Option<string>)

  /** One reading: the triple that moves into the `previous_*` fields. */
  datatype Entry = Entry(value: Value, lastChanged: Stamp, trend: Option<string>)

  function Current(d: Reading): Entry {
    Entry(d.value, d.lastChanged, d.trend)
  }

  function Previous(d: Reading): Entry {
    Entry(d.previousValue, d.previousLastChanged, d.previousTrend)
  }

  /** `_getInitialDataState`: no reading, no history, unit mg/dL. */
  function Initial(): (d: Reading)
    ensures Current(d) == Entry(Null, Unset, None) && Previous(d) == Entry(Null, Unset, None)
    ensures d.unit == Some(MgDl)
  {
    Reading(Null, Unset, None, Some(MgDl), Null, Unset, None)
  }

  /** The record `_validateEntities` installs when an entity is missing: the
      number 0 at the epoch with trend "unknown", and no history. */
  function NoData(): (d: Reading)
    ensures Current(d) == Entry(Number(0), At(0), Some("unknown"))
    ensures Previous(d) == Previous(Initial())
    ensures d.unit == Some(MgDl)
    ensures !IsValid(d.value) && !IsValid(d.previousValue)
  {
    Initial().(value := Number(0), lastChanged := At(0), trend := Some("unknown"))
  }

  /** A host entity: its state string, its `unit_of_measurement` attribute
      (possibly absent) and its `last_changed`. */
  datatype Entity = Entity(state: string, unit: Option<string>, lastChanged: Stamp)

  /** The host's entity-state map. */
  type States = map<string, Entity>

  /** `_getCurrentState`: the fields read from the two entities. */
  datatype Snapshot = Snapshot(value: string, unit: Option<string>, lastChanged: Stamp, trend: string)

  /** `_validateEntities` followed by `_getCurrentState`: a snapshot when both
      entities exist, nothing otherwise. */
  function Fetch(states: States, valueId: string, trendId: string): (r: Option<Snapshot>)
    ensures r.None? <==> valueId !in states || trendId !in states
    ensures r.Some? ==>
      && r.value.value == states[valueId].state
      && r.value.unit == states[valueId].unit
      && r.value.lastChanged == states[valueId].lastChanged
      && r.value.trend == states[trendId].state
  {
    if valueId !in states || trendId !in states then None
    else
      var v := states[valueId];
      Some(Snapshot(v.state, v.unit, v.lastChanged, states[trendId].state))
  }

  /** Whether merging `s` moves the current reading into the history: there
      is a current reading, and the new one carries a different timestamp. */
  predicate Shifts(d: Reading, s: Snapshot) {
    d.value != Null && s.lastChanged != d.lastChanged
  }

  /** `_updateCurrentData` plus the history shift of `_updateData`: the
      current fields always take the snapshot; the prior current reading
      moves into `previous_*` only when `Shifts` holds, and otherwise the
      history is left as it was. */
  function Merge(d: Reading, s: Snapshot): (r: Reading)
    ensures Current(r) == Entry(Text(s.value), s.lastChanged, Some(s.trend))
    ensures r.unit == s.unit
    ensures Previous(r) == if Shifts(d, s) then Current(d) else Previous(d)
  {
    var prior := if d.value != Null then Some(Current(d)) else None;
    var updated := d.(value := Text(s.value), unit := s.unit,
                      lastChanged := s.lastChanged, trend := Some(s.trend));
    if prior.Some? && s.lastChanged != prior.value.lastChanged then
      updated.(previousValue := prior.value.value,
               previousLastChanged := prior.value.lastChanged,
               previousTrend := prior.value.trend)
    else
      updated
  }

  /** The record after one render that reaches the data update. */
  function Step(d: Reading, states: States, valueId: string, trendId: string): (r: Reading)
    ensures valueId !in states || trendId !in states ==> r == NoData()
    ensures valueId in states && trendId in states ==>
      r == Merge(d, Snapshot(states[valueId].state, states[valueId].unit,
                             states[valueId].lastChanged, states[trendId].state))
  {
    match Fetch(states, valueId, trendId)
    case None => NoData()
    case Some(s) => Merge(d, s)
  }

  /** Re-rendering without new host data changes nothing. */
  lemma MergeIdempotent(d: Reading, s: Snapshot)
    ensures Merge(Merge(d, s), s) == Merge(d, s)
  {
  }

  lemma StepIdempotent(d: Reading, states: States, valueId: string, trendId: string)
    ensures Step(Step(d, states, valueId, trendId), states, valueId, trendId)
         == Step(d, states, valueId, trendId)
  {
  }

  /** The history only ever receives the reading it replaces: after a step,
      `previous_*` is the old history, the old current reading, or cleared. */
  lemma StepHistorySource(d: Reading, states: States, valueId: string, trendId: string)
    ensures var r := Step(d, states, valueId, trendId);
      Previous(r) in {Previous(d), Current(d), Previous(Initial())}
  {
  }

  /** The record after merging a sequence of snapshots in order. */
  function Run(d: Reading, snaps: seq<Snapshot>): (r: Reading)
    ensures |snaps| > 0 ==> Current(r) == Current(Merge(d, snaps[|snaps| - 1]))
  {
    if |snaps| == 0 then d else Merge(Run(d, snaps[..|snaps| - 1]), snaps[|snaps| - 1])
  }

  function EntryOf(s: Snapshot): Entry {
    Entry(Text(s.value), s.lastChanged, Some(s.trend))
  }

  /** Where the final block of equal timestamps starts. */
  function BlockStart(snaps: seq<Snapshot>): (k: nat)
    requires |snaps| > 0
    ensures k < |snaps|
    ensures forall j :: k <= j < |snaps| ==> snaps[j].lastChanged == snaps[|snaps| - 1].lastChanged
    ensures k > 0 ==> snaps[k - 1].lastChanged != snaps[|snaps| - 1].lastChanged
  {
    var n := |snaps|;
    if n == 1 then 0
    else if snaps[n - 2].lastChanged == snaps[n - 1].lastChanged then BlockStart(snaps[..n - 1])
    else n - 1
  }

  /** One step of history over a whole session: after any sequence of
      snapshots, `previous_*` holds the last snapshot taken before the
      timestamp last changed; if it never changed, whatever the first merge
      left there. */
  lemma {:induction false} RunKeepsOneStep(d: Reading, snaps: seq<Snapshot>)
    requires |snaps| > 0
    ensures var k := BlockStart(snaps);
      Previous(Run(d, snaps)) ==
        if k > 0 then EntryOf(snaps[k - 1]) else Previous(Merge(d, snaps[0]))
  {
    var n := |snaps|;
    if n == 1 {
      assert snaps[..0] == [];
    } else {
      var init := snaps[..n - 1];
      var before := Run(d, init);
      assert Run(d, snaps) == Merge(before, snaps[n - 1]);
      assert Current(before) == EntryOf(snaps[n - 2]) by {
        assert init[|init| - 1] == snaps[n - 2];
      }
      if snaps[n - 2].lastChanged == snaps[n - 1].lastChanged {
        RunKeepsOneStep(d, init);
        assert init[0] == snaps[0];
        var k := BlockStart(init);
        assert BlockStart(snaps) == k;
        if k > 0 {
          assert init[k - 1] == snaps[k - 1];
        }
      }
    }
  }
}
