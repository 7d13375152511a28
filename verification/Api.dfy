/** The API types shared by both controllers, and the validation rules the CRDs declare on a
    ClusterObjectSet status.  Only the fields that the controllers branch on or fill in are kept;
    free-text messages are not modelled. */
module Api {

  datatype Option<+T> = None | Some(value: T)

  type Byte = b: int | 0 <= b < 256

  type Bytes = seq<Byte>

  /** A point in time or a duration, in nanoseconds. */
  type Time = int

  datatype ObjectKey = ObjectKey(apiVersion: string, kind: string, name: string, namespace: string)

  /** Exactly one of an inline manifest and a reference into a ClusterObjectSlice. */
  datatype PhaseObject =
    | Inline(raw: Bytes)
    | Ref(sliceName: string, key: ObjectKey)

  datatype Phase = Phase(name: string, objects: seq<PhaseObject>)

  datatype PhaseStatus =
    | Invalid
    | Pending
    | Reconciling
    | WaitingForAssertions
    | Available
    | Unevaluated // the API's "Unknown"
    | Superseded
    | TearingDown
    | TeardownComplete

  datatype ObjectCounts = ObjectCounts(total: nat, present: nat, synced: nat, available: nat)

  /** `details` holds the identities of the listed objects. */
  datatype ObservedPhase = ObservedPhase(
    name: string,
    status: PhaseStatus,
    completedAt: Option<Time>,
    counts: ObjectCounts,
    details: seq<string>)

  datatype ConditionStatus = CondTrue | CondFalse | CondUnknown

  datatype Reason =
    | IsAvailable
    | IsUnavailable
    | IsArchived
    | IsSuperseded
    | InvalidRevision
    | InternalFailure
    | ReconcileFailure
    | TeardownFailure

  datatype Condition = Condition(status: ConditionStatus, reason: Reason, generation: int)

  /** The status subresource of a ClusterObjectSet.  An empty `hash` or `phases` is an absent
      field, as the omitempty tags make it. */
  datatype Status = Status(
    available: Option<Condition>,
    hash: string,
    completedAt: Option<Time>,
    counts: Option<ObjectCounts>,
    phases: seq<ObservedPhase>)

  const EMPTY_STATUS := Status(None, "", None, None, [])

  predicate ConditionTrue(s: Status) {
    s.available.Some? && s.available.value.status == CondTrue
  }

  predicate Distinct(ps: seq<Phase>) {
    forall i, j :: 0 <= i < j < |ps| ==> ps[i].name != ps[j].name
  }

  function Names(ps: seq<Phase>): seq<string> {
    seq(|ps|, i requires 0 <= i < |ps| => ps[i].name)
  }

  function NameSet(ps: seq<Phase>): set<string> {
    set p | p in ps :: p.name
  }

  function ObservedNames(ops: seq<ObservedPhase>): seq<string> {
    seq(|ops|, i requires 0 <= i < |ops| => ops[i].name)
  }

  // ---------- The CRD's validation rules on the status ----------

  function Sum(xs: seq<nat>): nat {
    if xs == [] then 0 else Sum(xs[..|xs| - 1]) + xs[|xs| - 1]
  }

  function Totals(ops: seq<ObservedPhase>): seq<nat> {
    seq(|ops|, i requires 0 <= i < |ops| => ops[i].counts.total)
  }

  function Presents(ops: seq<ObservedPhase>): seq<nat> {
    seq(|ops|, i requires 0 <= i < |ops| => ops[i].counts.present)
  }

  function Synceds(ops: seq<ObservedPhase>): seq<nat> {
    seq(|ops|, i requires 0 <= i < |ops| => ops[i].counts.synced)
  }

  function Availables(ops: seq<ObservedPhase>): seq<nat> {
    seq(|ops|, i requires 0 <= i < |ops| => ops[i].counts.available)
  }

  /** The four rules that each aggregate is the sum of the per-phase counts. */
  predicate CountsMatch(c: ObjectCounts, ops: seq<ObservedPhase>) {
    && c.total == Sum(Totals(ops))
    && c.present == Sum(Presents(ops))
    && c.synced == Sum(Synceds(ops))
    && c.available == Sum(Availables(ops))
  }

  ghost predicate KeyedByName(ops: seq<ObservedPhase>) {
    forall i, j :: 0 <= i < j < |ops| ==> ops[i].name != ops[j].name
  }

  /** The rules on one status value: phases and counts are present together, the aggregates are
      sums, and the phase list is keyed by name. */
  ghost predicate AdmissibleStatus(s: Status) {
    && (s.phases != [] <==> s.counts.Some?)
    && (s.counts.Some? ==> CountsMatch(s.counts.value, s.phases))
    && KeyedByName(s.phases)
  }

  /** A phase's completion time is set once.  List entries are correlated by name, so the rule applies
      to the phases in both lists. */
  ghost predicate PhaseTimesKept(prior: seq<ObservedPhase>, next: seq<ObservedPhase>) {
    forall i, j :: 0 <= i < |prior| && 0 <= j < |next|
      && prior[i].name == next[j].name && prior[i].completedAt.Some?
      ==> next[j].completedAt == prior[i].completedAt
  }

  /** The rules that relate a status to the one it replaces. */
  ghost predicate AdmissibleChange(prior: Status, next: Status) {
    && (prior.completedAt.Some? ==> next.completedAt == prior.completedAt)
    && (prior.hash != "" ==> next.hash == prior.hash)
    && PhaseTimesKept(prior.phases, next.phases)
  }
}
