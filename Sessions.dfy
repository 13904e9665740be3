/**
 * The records the streaming manager keeps for each live session, and the
 * value-level rules over its session table: admission, per-frame
 * bookkeeping, quality changes and the aggregates the metrics publisher
 * reads. The `StreamingManager` class applies these rules to its own state.
 */
module Sessions {

  import opened JsValues
  import SessionModel

  type SessionId = string
  type UserId = string
  type EnvironmentId = string

  /** Lifecycle status of a session held in the table. */
  datatype Status = Initializing | Active | Ending

  /** Opaque handles returned by the renderer and the network controller. */
  datatype RenderingContext = RenderingContext(handle: nat)
  datatype NetworkConnection = NetworkConnection(handle: nat, streamingUrl: string, webrtcConfig: string)

  /** `session.metrics`. */
  datatype SessionStats = SessionStats(
    framesRendered: nat,
    droppedFrames: nat,
    latencyMeasurements: seq<real>,
    bandwidthUsage: real,
    qualityChanges: nat)

  /** One entry of `activeSessions`. The creation timestamp is not modelled. */
  datatype Session = Session(
    id: SessionId,
    userId: UserId,
    environmentId: EnvironmentId,
    quality: string,
    status: Status,
    renderingContext: RenderingContext,
    networkConnection: NetworkConnection,
    metrics: SessionStats)

  /** One entry of `sessionMetrics`; times are milliseconds since the epoch. */
  datatype FrameClock = FrameClock(startTime: int, frameCount: nat, lastFrameTime: int)

  type Table = map<SessionId, Session>

  /** The quality a session gets when the caller names none: the name of
      the column's default tier. */
  const DefaultQuality: string := SessionModel.QualityName(SessionModel.DefaultQualityLevel)

  /** The capacity used when the `maxSessions` option is falsy. */
  const DefaultMaxSessions: int := 100

  /** Render time in milliseconds above which a frame counts as dropped. */
  const DroppedFrameThreshold: real := 11.1

  /** The per-frame budget at 90 frames per second, in milliseconds. */
  const TargetFrameTime: real := 1000.0 / 90.0

  /** Every this many frames the quality controller is asked to analyse. */
  const AnalysisInterval: nat := 100

  /** The steps that call out to a collaborator and may throw. */
  datatype Step =
    | CreateRenderingContext | CreateConnection | CacheWrite
    | DestroyRenderingContext | CloseConnection | CacheDelete
    | UpdateRenderingQuality | UpdateConnectionQuality | CacheRefresh

  /** What the manager's operations throw. */
  datatype Failure =
    | MaxSessionsReached
    | UserHasActiveSession
    | SessionNotFound
    | CollaboratorFailed(step: Step)
  {
    /** The message of the errors the manager raises itself. */
    function Message(): string
      requires !CollaboratorFailed?
    {
      match this
      case MaxSessionsReached => "Maximum concurrent sessions reached"
      case UserHasActiveSession => "User already has an active session"
      case SessionNotFound => "Session not found"
    }
  }

  /** `options.maxSessions || 100`: an absent or zero option means 100. */
  function MaxSessionsFrom(option: Option<int>): (max: int)
    ensures option.Some? && option.value != 0 ==> max == option.value
    ensures option.None? || option.value == 0 ==> max == DefaultMaxSessions
  {
    if option.None? || option.value == 0 then DefaultMaxSessions else option.value
  }

  // ---------------------------------------------------------------------
  // Admission

  predicate HasSessionFor(t: Table, userId: UserId) {
    exists id :: id in t && t[id].userId == userId
  }

  /** No user holds two entries of the table. */
  ghost predicate OneSessionPerUser(t: Table) {
    forall a, b {:trigger UserOf(t, a), UserOf(t, b)} :: a in t && b in t && UserOf(t, a) == UserOf(t, b) ==> a == b
  }

  /** The user holding the entry `id`. */
  function UserOf(t: Table, id: SessionId): UserId
    requires id in t
  {
    t[id].userId
  }

  /** The table stays within capacity; a negative capacity admits nothing,
      so the table then stays empty. */
  ghost predicate WithinCapacity(t: Table, maxSessions: int) {
    |t| <= if maxSessions < 0 then 0 else maxSessions
  }

  /** What holds of every entry of the table: it is filed under its own id,
      it has dropped no more frames than it rendered, its frame count agrees
      with its frame clock, and it holds no latency samples (nothing in the
      manager appends one). */
  predicate EntryConsistent(id: SessionId, s: Session, c: FrameClock) {
    && s.id == id
    && s.metrics.droppedFrames <= s.metrics.framesRendered
    && s.metrics.framesRendered == c.frameCount
    && s.metrics.latencyMeasurements == []
  }

  /** The two admission checks of `createSession`, capacity first. */
  function Admission(t: Table, userId: UserId, maxSessions: int): Option<Failure> {
    if |t| >= maxSessions then Some(MaxSessionsReached)
    else if HasSessionFor(t, userId) then Some(UserHasActiveSession)
    else None
  }

  /** The errors the manager raises itself carry distinct messages, and an
      admission refusal carries the message of the check that failed. */
  lemma RefusalMessages(t: Table, userId: UserId, maxSessions: int)
    ensures var r := Admission(t, userId, maxSessions);
            r.Some? ==> (r.value.Message() ==
                           if |t| >= maxSessions then "Maximum concurrent sessions reached"
                           else "User already has an active session")
    ensures SessionNotFound.Message() == "Session not found"
    ensures forall f: Failure, g: Failure :: !f.CollaboratorFailed? && !g.CollaboratorFailed? && f != g ==>
              f.Message() != g.Message()
  {
    forall f: Failure, g: Failure | !f.CollaboratorFailed? && !g.CollaboratorFailed? && f != g
      ensures f.Message() != g.Message()
    {
      assert |f.Message()| != |g.Message()|;
    }
  }

  /** Admission succeeds exactly when there is room and the user holds no
      session; a full table is reported as full whoever asks. */
  lemma AdmissionIff(t: Table, userId: UserId, maxSessions: int)
    ensures Admission(t, userId, maxSessions) == None <==>
              |t| < maxSessions && forall id :: id in t ==> t[id].userId != userId
    ensures |t| >= maxSessions ==> Admission(t, userId, maxSessions) == Some(MaxSessionsReached)
    ensures |t| < maxSessions && (exists id :: id in t && t[id].userId == userId) ==>
              Admission(t, userId, maxSessions) == Some(UserHasActiveSession)
  {
  }

  /** The record stored by a successful `createSession`, before its status
      is set to active: all counters zero and no latency samples. */
  function NewSession(id: SessionId, userId: UserId, environmentId: EnvironmentId, quality: string,
                      rc: RenderingContext, nc: NetworkConnection): (s: Session)
    ensures s.id == id && s.userId == userId && s.quality == quality && s.status == Initializing
    ensures s.metrics.framesRendered == 0 && s.metrics.droppedFrames == 0 && s.metrics.qualityChanges == 0
    ensures s.metrics.latencyMeasurements == [] && s.metrics.bandwidthUsage == 0.0
  {
    Session(id, userId, environmentId, quality, Initializing, rc, nc, SessionStats(0, 0, [], 0.0, 0))
  }

  /** Inserting an admitted session keeps one session per user and the
      capacity, and grows the table by exactly one. */
  lemma AdmittedInsertKeepsInvariants(t: Table, s: Session, maxSessions: int)
    requires OneSessionPerUser(t) && WithinCapacity(t, maxSessions)
    requires s.id !in t
    requires Admission(t, s.userId, maxSessions) == None
    ensures OneSessionPerUser(t[s.id := s])
    ensures WithinCapacity(t[s.id := s], maxSessions)
    ensures |t[s.id := s]| == |t| + 1
  {
    var t' := t[s.id := s];
    forall a, b | a in t' && b in t' && UserOf(t', a) == UserOf(t', b)
      ensures a == b
    {
      assert a != s.id ==> a in t && UserOf(t', a) == UserOf(t, a) != s.userId;
      assert b != s.id ==> b in t && UserOf(t', b) == UserOf(t, b) != s.userId;
    }
  }

  /** Removing an entry keeps both invariants and undoes an insertion. */
  lemma RemoveKeepsInvariants(t: Table, id: SessionId, maxSessions: int)
    requires OneSessionPerUser(t) && WithinCapacity(t, maxSessions)
    ensures OneSessionPerUser(t - {id}) && WithinCapacity(t - {id}, maxSessions)
    ensures id in t ==> |t - {id}| == |t| - 1
  {
    var t' := t - {id};
    forall a, b | a in t' && b in t' && UserOf(t', a) == UserOf(t', b)
      ensures a == b
    {
      assert UserOf(t, a) == UserOf(t', a) && UserOf(t, b) == UserOf(t', b);
    }
    if id in t {
      assert (t - {id}).Keys == t.Keys - {id};
    } else {
      assert t - {id} == t;
    }
  }

  /** Replacing a session by one of the same user keeps both invariants
      and the size of the table. */
  lemma ReplaceKeepsInvariants(t: Table, id: SessionId, s: Session, maxSessions: int)
    requires OneSessionPerUser(t) && WithinCapacity(t, maxSessions)
    requires id in t && s.userId == t[id].userId
    ensures OneSessionPerUser(t[id := s]) && WithinCapacity(t[id := s], maxSessions)
    ensures t[id := s].Keys == t.Keys && |t[id := s]| == |t|
  {
    var t' := t[id := s];
    assert t'.Keys == t.Keys;
    forall a, b | a in t' && b in t' && UserOf(t', a) == UserOf(t', b)
      ensures a == b
    {
      assert UserOf(t, a) == UserOf(t', a) && UserOf(t, b) == UserOf(t', b);
    }
  }

  /** Once a user's session is removed, the same user passes admission
      again, provided the table was within a positive capacity. */
  lemma RemoveReadmitsUser(t: Table, id: SessionId, maxSessions: int)
    requires OneSessionPerUser(t) && id in t && |t| <= maxSessions
    ensures Admission(t - {id}, t[id].userId, maxSessions) == None
  {
    RemoveKeepsInvariants(t, id, maxSessions);
    forall x | x in t - {id}
      ensures (t - {id})[x].userId != t[id].userId
    {
      assert UserOf(t, x) != UserOf(t, id);
    }
  }

  // ---------------------------------------------------------------------
  // The manager's invariant, over its four pieces of state

  /** The session table and the frame-clock table have the same ids, every
      entry is consistent with its clock, no user holds two sessions, the
      table is within capacity, and every id in it was issued; `total` counts
      the ids ever issued. */
  ghost predicate ManagerInvariant(t: Table, clocks: map<SessionId, FrameClock>, maxSessions: int,
                                   issued: set<SessionId>, total: nat) {
    && t.Keys == clocks.Keys
    && (forall id :: id in t ==> EntryConsistent(id, t[id], clocks[id]))
    && OneSessionPerUser(t)
    && WithinCapacity(t, maxSessions)
    && t.Keys <= issued
    && |issued| == total
  }

  /** Storing an admitted session under a fresh id, with its new clock,
      keeps the invariant and counts one more session. */
  lemma AdmitKeepsInvariant(t: Table, clocks: map<SessionId, FrameClock>, maxSessions: int,
                            issued: set<SessionId>, total: nat, s: Session, c: FrameClock)
    requires ManagerInvariant(t, clocks, maxSessions, issued, total)
    requires s.id !in issued && Admission(t, s.userId, maxSessions) == None
    requires EntryConsistent(s.id, s, c)
    ensures ManagerInvariant(t[s.id := s], clocks[s.id := c], maxSessions, issued + {s.id}, total + 1)
    ensures |t[s.id := s]| == |t| + 1
  {
    AdmittedInsertKeepsInvariants(t, s, maxSessions);
  }

  /** Replacing an entry by one of the same user that is still consistent
      with the (unchanged) clock keeps the invariant. */
  lemma UpdateKeepsInvariant(t: Table, clocks: map<SessionId, FrameClock>, maxSessions: int,
                             issued: set<SessionId>, total: nat, id: SessionId, s: Session)
    requires ManagerInvariant(t, clocks, maxSessions, issued, total)
    requires id in t && s.userId == t[id].userId && EntryConsistent(id, s, clocks[id])
    ensures ManagerInvariant(t[id := s], clocks, maxSessions, issued, total)
  {
    ReplaceKeepsInvariants(t, id, s, maxSessions);
  }

  /** Replacing an entry and its clock together keeps the invariant. */
  lemma UpdateWithClockKeepsInvariant(t: Table, clocks: map<SessionId, FrameClock>, maxSessions: int,
                                      issued: set<SessionId>, total: nat, id: SessionId, s: Session, c: FrameClock)
    requires ManagerInvariant(t, clocks, maxSessions, issued, total)
    requires id in t && s.userId == t[id].userId && EntryConsistent(id, s, c)
    ensures ManagerInvariant(t[id := s], clocks[id := c], maxSessions, issued, total)
  {
    ReplaceKeepsInvariants(t, id, s, maxSessions);
  }

  /** Removing an id from both tables keeps the invariant. */
  lemma RemoveKeepsInvariant(t: Table, clocks: map<SessionId, FrameClock>, maxSessions: int,
                             issued: set<SessionId>, total: nat, id: SessionId)
    requires ManagerInvariant(t, clocks, maxSessions, issued, total)
    ensures ManagerInvariant(t - {id}, clocks - {id}, maxSessions, issued, total)
  {
    RemoveKeepsInvariants(t, id, maxSessions);
  }

  // ---------------------------------------------------------------------
  // Per-frame bookkeeping

  predicate IsDroppedFrame(renderTime: real) {
    renderTime > DroppedFrameThreshold
  }

  /** `updateSessionMetrics` on `session.metrics`. */
  function RecordFrame(m: SessionStats, renderTime: real): SessionStats {
    m.(framesRendered := m.framesRendered + 1,
       droppedFrames := if IsDroppedFrame(renderTime) then m.droppedFrames + 1 else m.droppedFrames)
  }

  /** Recording a frame adds exactly one frame, adds a dropped frame exactly
      when the render took longer than 11.1 ms, touches nothing else, and
      keeps dropped frames within frames rendered. */
  lemma RecordFrameCounts(m: SessionStats, renderTime: real)
    ensures RecordFrame(m, renderTime).framesRendered == m.framesRendered + 1
    ensures RecordFrame(m, renderTime).droppedFrames == m.droppedFrames + 1 <==> renderTime > 11.1
    ensures RecordFrame(m, renderTime).droppedFrames >= m.droppedFrames
    ensures RecordFrame(m, renderTime).droppedFrames <= m.droppedFrames + 1
    ensures RecordFrame(m, renderTime).(framesRendered := m.framesRendered, droppedFrames := m.droppedFrames) == m
    ensures m.droppedFrames <= m.framesRendered ==>
              RecordFrame(m, renderTime).droppedFrames <= RecordFrame(m, renderTime).framesRendered
  {
  }

  /** A session's metrics after `n` frames that each took `renderTime`. */
  function RecordFrames(m: SessionStats, renderTime: real, n: nat): SessionStats {
    if n == 0 then m else RecordFrame(RecordFrames(m, renderTime, n - 1), renderTime)
  }

  /** A session rendering every frame slower than the budget, from fresh
      counters, has dropped every frame it rendered. */
  lemma {:induction false} SlowFramesAllDropped(m: SessionStats, renderTime: real, n: nat)
    requires m.framesRendered == 0 && m.droppedFrames == 0
    requires renderTime > DroppedFrameThreshold
    ensures RecordFrames(m, renderTime, n).droppedFrames == RecordFrames(m, renderTime, n).framesRendered == n
  {
    if n > 0 {
      SlowFramesAllDropped(m, renderTime, n - 1);
    }
  }

  /** `Math.max(0, targetFrameTime - renderTime)`. */
  function NextFrameDelay(renderTime: real): (delay: real)
    ensures delay >= 0.0
    ensures renderTime >= 0.0 ==> delay <= TargetFrameTime
    ensures delay == 0.0 <==> renderTime >= TargetFrameTime
    ensures delay > 0.0 ==> renderTime + delay == TargetFrameTime
  {
    if TargetFrameTime - renderTime > 0.0 then TargetFrameTime - renderTime else 0.0
  }

  /** The dropped-frame threshold, 11.1 ms, lies just under the budget of
      1000/90 ms: a frame taking 11.105 ms counts as dropped, yet the next
      frame is still delayed to fill the budget. */
  lemma DropThresholdBelowBudget()
    ensures DroppedFrameThreshold < TargetFrameTime
    ensures IsDroppedFrame(11.105) && NextFrameDelay(11.105) > 0.0
    ensures forall t :: t > TargetFrameTime ==> IsDroppedFrame(t)
  {
  }

  /** The quality controller is consulted when the frame count reaches a
      multiple of 100. */
  predicate AnalysisDue(framesRendered: nat) {
    framesRendered % AnalysisInterval == 0
  }

  /** What `analyzePerformance` is given. */
  datatype PerformanceSample = PerformanceSample(averageRenderTime: real, droppedFrameRate: real, networkLatency: real)

  /** Among consecutive frame counts, analysis falls due exactly once in
      every hundred. */
  lemma AnalysisEveryHundredFrames(k: nat)
    ensures AnalysisDue(100 * k)
    ensures forall n: nat :: 100 * k < n < 100 * k + 100 ==> !AnalysisDue(n)
  {
    forall n: nat | 100 * k < n < 100 * k + 100
      ensures !AnalysisDue(n)
    {
      assert n == 100 * k + (n - 100 * k);
      assert n % 100 == n - 100 * k;
    }
  }

  // ---------------------------------------------------------------------
  // Quality changes

  /** The session after its quality is changed to `q`. */
  function WithQuality(s: Session, q: string): Session {
    s.(quality := q, metrics := s.metrics.(qualityChanges := s.metrics.qualityChanges + 1))
  }

  /** A change of quality sets the quality, adds exactly one to the change
      counter and leaves every other part of the session as it was. */
  lemma WithQualityChangesOnlyQuality(s: Session, q: string)
    ensures WithQuality(s, q).quality == q
    ensures WithQuality(s, q).metrics.qualityChanges == s.metrics.qualityChanges + 1
    ensures WithQuality(s, q).(quality := s.quality, metrics := s.metrics) == s
    ensures WithQuality(s, q).metrics.(qualityChanges := s.metrics.qualityChanges) == s.metrics
  {
  }

  // ---------------------------------------------------------------------
  // Sums over the table

  /** The sum of `f` over the sessions with ids in `ids`; the order in which
      `for ... of` visits them does not matter (`TotalRemove`). */
  ghost function Total(t: Table, ids: set<SessionId>, f: Session -> real): real
    requires ids <= t.Keys
    decreases ids
  {
    if ids == {} then 0.0
    else
      var id :| id in ids;
      f(t[id]) + Total(t, ids - {id}, f)
  }

  /** Any id can be taken out of the sum first. */
  lemma {:induction false} TotalRemove(t: Table, ids: set<SessionId>, f: Session -> real, x: SessionId)
    requires ids <= t.Keys && x in ids
    ensures Total(t, ids, f) == f(t[x]) + Total(t, ids - {x}, f)
    decreases ids
  {
    var y :| y in ids && Total(t, ids, f) == f(t[y]) + Total(t, ids - {y}, f);
    if y != x {
      TotalRemove(t, ids - {y}, f, x);
      TotalRemove(t, ids - {x}, f, y);
      assert ids - {y} - {x} == ids - {x} - {y};
    }
  }

  /** The sum only looks at the sessions it sums over. */
  lemma {:induction false} TotalAgree(t: Table, t': Table, ids: set<SessionId>, f: Session -> real)
    requires ids <= t.Keys && ids <= t'.Keys
    requires forall id :: id in ids ==> f(t[id]) == f(t'[id])
    ensures Total(t, ids, f) == Total(t', ids, f)
    decreases ids
  {
    if ids != {} {
      var id :| id in ids;
      TotalRemove(t, ids, f, id);
      TotalRemove(t', ids, f, id);
      TotalAgree(t, t', ids - {id}, f);
    }
  }

  /** Replacing one session changes the sum by the difference in its term. */
  lemma TotalUpdate(t: Table, id: SessionId, s: Session, f: Session -> real)
    requires id in t
    ensures Total(t[id := s], t.Keys, f) == Total(t, t.Keys, f) - f(t[id]) + f(s)
  {
    var t' := t[id := s];
    assert t'.Keys == t.Keys;
    TotalRemove(t, t.Keys, f, id);
    TotalRemove(t', t.Keys, f, id);
    TotalAgree(t, t', t.Keys - {id}, f);
  }

  /** Summing a term that is at most another term gives at most its sum. */
  lemma {:induction false} TotalMonotone(t: Table, ids: set<SessionId>, f: Session -> real, g: Session -> real)
    requires ids <= t.Keys
    requires forall id :: id in ids ==> f(t[id]) <= g(t[id])
    ensures Total(t, ids, f) <= Total(t, ids, g)
    decreases ids
  {
    if ids != {} {
      var id :| id in ids;
      TotalRemove(t, ids, f, id);
      TotalRemove(t, ids, g, id);
      TotalMonotone(t, ids - {id}, f, g);
    }
  }

  /** A term that is zero everywhere sums to zero. */
  lemma {:induction false} TotalOfZero(t: Table, ids: set<SessionId>, f: Session -> real)
    requires ids <= t.Keys
    requires forall id :: id in ids ==> f(t[id]) == 0.0
    ensures Total(t, ids, f) == 0.0
    decreases ids
  {
    if ids != {} {
      var id :| id in ids;
      TotalRemove(t, ids, f, id);
      TotalOfZero(t, ids - {id}, f);
    }
  }

  function DroppedOf(s: Session): real { s.metrics.droppedFrames as real }
  function FramesOf(s: Session): real { s.metrics.framesRendered as real }

  /** `getDroppedFrameCount` over a table. */
  ghost function DroppedTotal(t: Table): real {
    Total(t, t.Keys, DroppedOf)
  }

  /** Across the table, dropped frames never exceed frames rendered when
      that holds session by session. */
  lemma DroppedTotalWithinFrames(t: Table)
    requires forall id :: id in t ==> t[id].metrics.droppedFrames <= t[id].metrics.framesRendered
    ensures 0.0 <= DroppedTotal(t) <= Total(t, t.Keys, FramesOf)
  {
    TotalMonotone(t, t.Keys, DroppedOf, FramesOf);
    TotalMonotone(t, t.Keys, s => 0.0, DroppedOf);
    TotalOfZero(t, t.Keys, s => 0.0);
  }

  /** Recording a frame for one session adds at most one, and exactly one
      when that frame was slow, to the table's dropped-frame count. */
  lemma RecordFrameDroppedTotal(t: Table, id: SessionId, renderTime: real)
    requires id in t
    ensures DroppedTotal(t[id := t[id].(metrics := RecordFrame(t[id].metrics, renderTime))]) ==
              DroppedTotal(t) + (if renderTime > 11.1 then 1.0 else 0.0)
  {
    var s := t[id].(metrics := RecordFrame(t[id].metrics, renderTime));
    assert t[id := s].Keys == t.Keys;
    TotalUpdate(t, id, s, DroppedOf);
  }

  // ---------------------------------------------------------------------
  // Latency

  /** `xs.reduce((a, b) => a + b)` for a non-empty list, and 0 for none. */
  function SumOf(xs: seq<real>): real {
    if xs == [] then 0.0 else SumOf(xs[..|xs| - 1]) + xs[|xs| - 1]
  }

  lemma {:induction false} SumOfNonNegative(xs: seq<real>)
    requires forall i :: 0 <= i < |xs| ==> xs[i] >= 0.0
    ensures SumOf(xs) >= 0.0
  {
    if xs != [] {
      SumOfNonNegative(xs[..|xs| - 1]);
    }
  }

  function LatencySumOf(s: Session): real { SumOf(s.metrics.latencyMeasurements) }
  function LatencyCountOf(s: Session): real { |s.metrics.latencyMeasurements| as real }

  /** The average over every session's samples together, or 0 with none. */
  ghost function GlobalAverageLatency(t: Table): real {
    var count := Total(t, t.Keys, LatencyCountOf);
    if count > 0.0 then Total(t, t.Keys, LatencySumOf) / count else 0.0
  }

  /** The average of one session's samples; 0 for an unknown session or
      one with no samples. */
  function SessionAverageLatency(t: Table, id: SessionId): real {
    if id in t && |t[id].metrics.latencyMeasurements| > 0 then
      SumOf(t[id].metrics.latencyMeasurements) / (|t[id].metrics.latencyMeasurements| as real)
    else 0.0
  }

  /** `getAverageLatency(sessionId)`: an empty id is falsy and asks for the
      global average. */
  ghost function AverageLatency(t: Table, sessionId: Option<SessionId>): real {
    if sessionId.Some? && sessionId.value != "" then SessionAverageLatency(t, sessionId.value)
    else GlobalAverageLatency(t)
  }

  /** With no samples anywhere the global average is 0; an unknown session
      also averages 0; and non-negative samples never average below 0. */
  lemma AverageLatencyFacts(t: Table, id: SessionId)
    ensures (forall x :: x in t ==> t[x].metrics.latencyMeasurements == []) ==> AverageLatency(t, None) == 0.0
    ensures id != "" && id !in t ==> AverageLatency(t, Some(id)) == 0.0
    ensures (forall x, i :: x in t && 0 <= i < |t[x].metrics.latencyMeasurements| ==>
               t[x].metrics.latencyMeasurements[i] >= 0.0) ==>
            AverageLatency(t, None) >= 0.0 && AverageLatency(t, Some(id)) >= 0.0
  {
    if forall x :: x in t ==> t[x].metrics.latencyMeasurements == [] {
      TotalOfZero(t, t.Keys, LatencyCountOf);
    }
    if forall x, i :: x in t && 0 <= i < |t[x].metrics.latencyMeasurements| ==>
                      t[x].metrics.latencyMeasurements[i] >= 0.0 {
      forall x | x in t
        ensures LatencySumOf(t[x]) >= 0.0
      {
        SumOfNonNegative(t[x].metrics.latencyMeasurements);
      }
      TotalMonotone(t, t.Keys, s => 0.0, LatencySumOf);
      TotalOfZero(t, t.Keys, s => 0.0);
      if id in t {
        SumOfNonNegative(t[id].metrics.latencyMeasurements);
      }
    }
  }

  // ---------------------------------------------------------------------
  // Sessions by quality

  /** The qualities held by the sessions with ids in `ids`. */
  function QualitiesHeld(t: Table, ids: set<SessionId>): set<string>
    requires ids <= t.Keys
  {
    set id | id in ids :: t[id].quality
  }

  /** How many of the sessions with ids in `ids` hold quality `q`. */
  function CountWithQuality(t: Table, ids: set<SessionId>, q: string): nat
    requires ids <= t.Keys
  {
    |set id | id in ids && t[id].quality == q|
  }

  /** The `qualityCount` object built from the sessions with ids in `ids`. */
  function Histogram(t: Table, ids: set<SessionId>): map<string, nat>
    requires ids <= t.Keys
  {
    map q | q in QualitiesHeld(t, ids) :: CountWithQuality(t, ids, q)
  }

  /** The sum of a map's values. */
  ghost function SumValues(h: map<string, nat>): nat
    decreases |h|
  {
    if h == map[] then 0
    else
      var k :| k in h;
      h[k] + SumValues(h - {k})
  }

  /** Any key can be taken out of the sum first. */
  lemma {:induction false} SumValuesRemove(h: map<string, nat>, x: string)
    requires x in h
    ensures SumValues(h) == h[x] + SumValues(h - {x})
    decreases |h|
  {
    var y :| y in h && SumValues(h) == h[y] + SumValues(h - {y});
    if y != x {
      SumValuesRemove(h - {y}, x);
      SumValuesRemove(h - {x}, y);
      assert h - {y} - {x} == h - {x} - {y};
    }
  }

  /** Setting one key changes the sum by the difference at that key. */
  lemma SumValuesUpdate(h: map<string, nat>, k: string, v: nat)
    ensures SumValues(h[k := v]) == SumValues(h) - (if k in h then h[k] else 0) + v
  {
    SumValuesRemove(h[k := v], k);
    assert h[k := v] - {k} == h - {k};
    if k in h {
      SumValuesRemove(h, k);
    } else {
      assert h - {k} == h;
    }
  }

  /** One more id adds its own quality to the qualities held. */
  lemma QualitiesHeldAdd(t: Table, ids: set<SessionId>, id: SessionId)
    requires ids <= t.Keys && id in t
    ensures QualitiesHeld(t, ids + {id}) == QualitiesHeld(t, ids) + {t[id].quality}
  {
  }

  /** One more id raises the count of its own quality by one, and no other;
      a quality nobody holds has a count of zero. */
  lemma CountWithQualityAdd(t: Table, ids: set<SessionId>, id: SessionId, p: string)
    requires ids <= t.Keys && id in t && id !in ids
    ensures CountWithQuality(t, ids + {id}, p) ==
              CountWithQuality(t, ids, p) + (if t[id].quality == p then 1 else 0)
    ensures p !in QualitiesHeld(t, ids) ==> CountWithQuality(t, ids, p) == 0
  {
    var before := set x | x in ids && t[x].quality == p;
    var after := set x | x in ids + {id} && t[x].quality == p;
    if t[id].quality == p {
      assert after == before + {id};
    } else {
      assert after == before;
    }
    if p !in QualitiesHeld(t, ids) {
      assert before == {};
    }
  }

  /** `HistogramAdd`, one quality at a time. */
  lemma HistogramAddAt(t: Table, ids: set<SessionId>, id: SessionId, p: string)
    requires ids <= t.Keys && id in t && id !in ids
    ensures var h := Histogram(t, ids);
            var h' := Histogram(t, ids + {id});
            && (p in h' <==> p in h || p == t[id].quality)
            && (p in h' ==> h'[p] == (if p in h then h[p] else 0) + (if p == t[id].quality then 1 else 0))
  {
    QualitiesHeldAdd(t, ids, id);
    CountWithQualityAdd(t, ids, id, p);
  }

  /** Counting one more session adds one to its quality's count and leaves
      the other counts alone. */
  lemma HistogramAdd(t: Table, ids: set<SessionId>, id: SessionId)
    requires ids <= t.Keys && id in t && id !in ids
    ensures var h := Histogram(t, ids);
            var q := t[id].quality;
            Histogram(t, ids + {id}) == h[q := (if q in h then h[q] else 0) + 1]
  {
    var h := Histogram(t, ids);
    var q := t[id].quality;
    var h' := Histogram(t, ids + {id});
    var expected := h[q := (if q in h then h[q] else 0) + 1];
    forall p | p in h' || p in expected
      ensures p in h' && p in expected && h'[p] == expected[p]
    {
      HistogramAddAt(t, ids, id, p);
    }
    assert h'.Keys == expected.Keys;
  }

  /** Every quality held has a count of at least one. */
  lemma HistogramCountsPositive(t: Table, ids: set<SessionId>)
    requires ids <= t.Keys
    ensures forall q :: q in Histogram(t, ids) ==> Histogram(t, ids)[q] >= 1
  {
    forall q | q in Histogram(t, ids)
      ensures Histogram(t, ids)[q] >= 1
    {
      var id :| id in ids && t[id].quality == q;
      var holders := set x | x in ids && t[x].quality == q;
      assert id in holders;
      assert holders != {};
    }
  }
}
