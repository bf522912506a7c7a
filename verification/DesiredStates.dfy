/**
 Concurrent UpsertState and UpdateStateStatus calls on one state key
 (control_plane/store/redis.go). A call reads the key, prepares a value, and later runs one script;
 between the two any other calls may run. An upsert whose read gets no reply takes the key for
 missing. A call whose transport fails may never run its script, or run it without its caller
 learning so.
 */
module DesiredStates {
  import opened Wrappers
  import opened VersionedStore

  /** The record kept under the key; spec stands for the fields only UpsertState changes. */
  datatype DesiredState = DesiredState(spec: string, version: int, status: string, lastError: string, lastChecked: int)

  /** The fields a status call sets. */
  datatype Patch = Patch(status: string, lastError: string, lastChecked: int)

  /** What a successful call contributes. */
  datatype Update = Upsert(state: DesiredState) | Status(patch: Patch)

  function Patched(base: DesiredState, p: Patch): DesiredState {
    base.(status := p.status, lastError := p.lastError, lastChecked := p.lastChecked, version := base.version + 1)
  }

  /** A call between its read and its script. */
  datatype Call =
    | UpsertReady(state: DesiredState, newVersion: int)
    | StatusReady(patch: Patch, base: DesiredState)
  {
    function Contribution(): Update {
      match this
      case UpsertReady(state, _) => Upsert(state)
      case StatusReady(patch, _) => Status(patch)
    }
  }

  /** A JSON value: a record, or a string whose content is the text of another value. */
  datatype Json = Object(record: DesiredState) | Quoted(text: Json)

  /** The value that the versioned read returns: the stored text, handed over as a string. */
  function VersionedGet(cell: Cell<DesiredState>): Option<Json> {
    if cell.Some? then Some(Quoted(Object(cell.value.value))) else None
  }

  /** Decoding into a record fails on a string. */
  function Decode(json: Json): Reply<DesiredState> {
    if json.Object? then Ok(json.record) else Error
  }

  /** GetState as written decodes what the versioned read returns; unquotes tells of a reader that takes
      the string's content first, as a status call needs. */
  function GetState(cell: Cell<DesiredState>, unquotes: bool): Reply<Option<DesiredState>> {
    match VersionedGet(cell)
    case None => Ok(None)
    case Some(json) =>
      match Decode(if unquotes && json.Quoted? then json.text else json)
      case Ok(record) => Ok(Some(record))
      case Error => Error
  }

  datatype State = State(unquotes: bool, cell: Cell<DesiredState>, calls: map<nat, Call>, log: seq<Update>)

  datatype Step =
    | ReadForUpsert(id: nat, state: DesiredState, callFails: bool)
    | ReadForStatus(id: nat, patch: Patch, expectedVersion: int)
    | RunScript(id: nat, timestamp: int)
    | Abandon(id: nat)

  predicate Enabled(s: State, step: Step) {
    match step
    case ReadForUpsert(id, _, _) => id !in s.calls
    case ReadForStatus(id, _, _) => id !in s.calls
    case RunScript(id, _) => id in s.calls
    case Abandon(id) => id in s.calls
  }

  function Apply(s: State, step: Step): State
    requires Enabled(s, step)
  {
    match step
    case ReadForUpsert(id, state, callFails) =>
      var newVersion := if s.cell.Some? && !callFails then s.cell.value.version + 1 else 1;
      s.(calls := s.calls[id := UpsertReady(state, newVersion)])
    case ReadForStatus(id, patch, expectedVersion) =>
      var current := GetState(s.cell, s.unquotes);
      if current.Error? || current.value.None? then s                             // not decoded, or not found
      else if expectedVersion > 0 && current.value.value.version != expectedVersion then s  // version mismatch
      else s.(calls := s.calls[id := StatusReady(patch, current.value.value)])
    case RunScript(id, timestamp) =>
      var call := s.calls[id];
      var (cell, ok) :=
        match call
        case UpsertReady(state, newVersion) =>
          SetScript(s.cell, Versioned(state.(version := newVersion), newVersion, timestamp))
        case StatusReady(patch, base) =>
          CasScript(s.cell, base.version, Versioned(Patched(base, patch), base.version + 1, timestamp));
      State(s.unquotes, cell, s.calls - {id}, if ok then s.log + [call.Contribution()] else s.log)
    case Abandon(id) => s.(calls := s.calls - {id})
  }

  ghost predicate IsRun(states: seq<State>, steps: seq<Step>) {
    && |states| == |steps| + 1
    && Init(states[0])
    && forall i {:trigger steps[i]} :: 0 <= i < |steps| ==> Enabled(states[i], steps[i]) && states[i+1] == Apply(states[i], steps[i])
  }

  ghost predicate Init(s: State) {
    && s.calls == map[] && s.log == []
    && (s.cell.Some? ==> 0 <= s.cell.value.value.version == s.cell.value.version)
  }

  // ---------- The sequential meaning ----------

  function VersionOf(cell: Cell<DesiredState>): int {
    if cell.Some? then cell.value.version else 0
  }

  /** The record after the first n updates are applied one after another, each on the result of the last. */
  function Replay(start: Cell<DesiredState>, log: seq<Update>, n: nat): Option<DesiredState>
    requires n <= |log|
  {
    if n == 0 then (if start.Some? then Some(start.value.value) else None)
    else
      var before := Replay(start, log, n - 1);
      match log[n-1]
      case Upsert(state) => Some(state.(version := VersionOf(start) + n))
      case Status(patch) => if before.Some? then Some(Patched(before.value, patch)) else None
  }

  /** Later updates do not change what the earlier ones came to. */
  lemma {:induction false} ReplayPrefix(start: Cell<DesiredState>, log: seq<Update>, u: Update, n: nat)
    requires n <= |log|
    ensures Replay(start, log + [u], n) == Replay(start, log, n)
  {
    if n > 0 {
      ReplayPrefix(start, log, u, n - 1);
    }
  }

  ghost predicate CellInv(start: Cell<DesiredState>, s: State) {
    && 0 <= VersionOf(start) && VersionOf(s.cell) == VersionOf(start) + |s.log|
    && (s.cell.Some? ==> s.cell.value.value.version == s.cell.value.version)
    && Replay(start, s.log, |s.log|) == (if s.cell.Some? then Some(s.cell.value.value) else None)
    && (s.cell.None? ==> start.None? && s.log == [])
  }

  ghost predicate CallInv(cell: Cell<DesiredState>, call: Call) {
    match call
    case UpsertReady(_, newVersion) => newVersion <= VersionOf(cell) + 1 && (cell.None? ==> newVersion == 1)
    case StatusReady(_, base) =>
      && cell.Some? && base.version <= cell.value.version
      && (base.version == cell.value.version ==> base == cell.value.value)
  }

  ghost predicate Inv(start: Cell<DesiredState>, s: State) {
    CellInv(start, s) && forall id :: id in s.calls ==> CallInv(s.cell, s.calls[id])
  }

  lemma StepKeepsInv(start: Cell<DesiredState>, s: State, step: Step)
    requires Inv(start, s) && Enabled(s, step)
    ensures Inv(start, Apply(s, step))
  {
    if step.RunScript? {
      assert CallInv(s.cell, s.calls[step.id]);
      ReplayPrefix(start, s.log, s.calls[step.id].Contribution(), |s.log|);
      var s' := Apply(s, step);
      forall other | other in s'.calls ensures CallInv(s'.cell, s'.calls[other]) {
        assert CallInv(s.cell, s.calls[other]);
      }
    }
  }

  lemma {:induction false} RunKeepsInv(states: seq<State>, steps: seq<Step>, n: nat)
    requires IsRun(states, steps) && n < |states|
    ensures Inv(states[0].cell, states[n])
  {
    if n > 0 {
      RunKeepsInv(states, steps, n - 1);
      StepKeepsInv(states[0].cell, states[n-1], steps[n-1]);
    }
  }

  /** No update is lost: under every interleaving the stored record is the sequential replay of the
      successful calls in the order of their scripts, the hash version is the starting version plus
      their number, and the record's own version equals it. */
  lemma NoLostUpdates(states: seq<State>, steps: seq<Step>, n: nat)
    requires IsRun(states, steps) && n < |states|
    ensures var start, s := states[0].cell, states[n];
            && VersionOf(s.cell) == VersionOf(start) + |s.log|
            && (s.cell.Some? ==> s.cell.value.value.version == s.cell.value.version)
            && Replay(start, s.log, |s.log|) == (if s.cell.Some? then Some(s.cell.value.value) else None)
  {
    RunKeepsInv(states, steps, n);
  }

  /** The spec of the last upsert among the first n updates, if there is one. */
  function LastSpec(log: seq<Update>, n: nat): Option<string>
    requires n <= |log|
  {
    if n == 0 then None
    else if log[n-1].Upsert? then Some(log[n-1].state.spec)
    else LastSpec(log, n - 1)
  }

  /** What a record reports: the fields a status call sets. */
  function Report(d: DesiredState): Patch {
    Patch(d.status, d.lastError, d.lastChecked)
  }

  lemma {:induction false} ReplayShowsLast(start: Cell<DesiredState>, log: seq<Update>, n: nat)
    requires n <= |log| && Replay(start, log, n).Some?
    ensures LastSpec(log, n).None? ==> start.Some?
    ensures Replay(start, log, n).value.spec == if LastSpec(log, n).Some? then LastSpec(log, n).value else start.value.value.spec
    ensures n > 0 ==>
              Report(Replay(start, log, n).value) == (match log[n-1] case Upsert(state) => Report(state) case Status(patch) => patch)
  {
    if n > 0 && log[n-1].Status? {
      ReplayShowsLast(start, log, n - 1);
    }
  }

  /** After any run the stored status, error and check time are those of the last successful call, be it a
      status call or an upsert, and the spec is that of the last successful upsert: a status call changes
      the three fields and nothing else. */
  lemma StoredIsLatest(states: seq<State>, steps: seq<Step>, n: nat)
    requires IsRun(states, steps) && n < |states| && states[n].cell.Some? && states[n].log != []
    ensures var start, log, stored := states[0].cell, states[n].log, states[n].cell.value.value;
            && (LastSpec(log, |log|).None? ==> start.Some?)
            && stored.spec == (if LastSpec(log, |log|).Some? then LastSpec(log, |log|).value else start.value.value.spec)
            && Patch(stored.status, stored.lastError, stored.lastChecked) ==
               match log[|log|-1]
               case Upsert(state) => Patch(state.status, state.lastError, state.lastChecked)
               case Status(patch) => patch
  {
    RunKeepsInv(states, steps, n);
    ReplayShowsLast(states[0].cell, states[n].log, |states[n].log|);
  }

  /** Every step either leaves the key alone, or is a script that moves its version from v to v+1. */
  lemma VersionStepsByOne(states: seq<State>, steps: seq<Step>, n: nat)
    requires IsRun(states, steps) && n < |steps|
    ensures var s, s' := states[n], states[n+1];
            if s'.log == s.log then s'.cell == s.cell
            else steps[n].RunScript? && s'.log == s.log + [s.calls[steps[n].id].Contribution()]
                 && VersionOf(s'.cell) == VersionOf(s.cell) + 1
  {
    RunKeepsInv(states, steps, n);
    RunKeepsInv(states, steps, n + 1);
    assert states[n+1] == Apply(states[n], steps[n]);
  }

  /** A call's script succeeds exactly when no other call has written since its read: a status call
      when the record it read is still the stored one, an upsert when the version still is the one
      it read. */
  lemma SucceedsIffUnchanged(states: seq<State>, steps: seq<Step>, n: nat)
    requires IsRun(states, steps) && n < |steps| && steps[n].RunScript?
    ensures var s, call := states[n], states[n].calls[steps[n].id];
            states[n+1].log != s.log <==>
              match call
              case UpsertReady(_, newVersion) => newVersion == VersionOf(s.cell) + 1
              case StatusReady(_, base) => s.cell.Some? && s.cell.value.value == base
  {
    RunKeepsInv(states, steps, n);
    assert CallInv(states[n].cell, states[n].calls[steps[n].id]);
  }

  ghost predicate OnlyUpserts(s: State) {
    && (forall id :: id in s.calls ==> s.calls[id].UpsertReady?)
    && (forall u :: u in s.log ==> u.Upsert?)
  }

  /** A status call reaches its script if and only if the reader takes the string's content, the record
      exists, and it has the expected version or none is expected. */
  lemma StatusReachesScriptExactly(s: State, id: nat, patch: Patch, expectedVersion: int)
    requires Enabled(s, ReadForStatus(id, patch, expectedVersion))
    ensures id in Apply(s, ReadForStatus(id, patch, expectedVersion)).calls <==>
              s.unquotes && s.cell.Some? && (expectedVersion <= 0 || s.cell.value.value.version == expectedVersion)
  {
  }

  /** As written, the reader decodes the string that the versioned read returns: in no run does a status
      call ever reach its script. */
  lemma {:induction false} QuotedTakesNoStatus(states: seq<State>, steps: seq<Step>, n: nat)
    requires IsRun(states, steps) && n < |states| && !states[0].unquotes
    ensures !states[n].unquotes && OnlyUpserts(states[n])
  {
    if n > 0 {
      QuotedTakesNoStatus(states, steps, n - 1);
      StepTakesNoStatus(states[n-1], steps[n-1]);
    }
  }

  lemma StepTakesNoStatus(s: State, step: Step)
    requires Enabled(s, step) && !s.unquotes && OnlyUpserts(s)
    ensures !Apply(s, step).unquotes && OnlyUpserts(Apply(s, step))
  {
    if step.ReadForStatus? {
      StatusReachesScriptExactly(s, step.id, step.patch, step.expectedVersion);
    }
  }
}
