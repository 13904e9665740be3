/**
 * The in-memory session manager: a table of live sessions, a parallel table
 * of frame clocks, the running count of sessions ever created and the
 * shutdown flag, with the operations that change them.
 *
 * Every call into a collaborator (renderer, network controller, cache) is a
 * parameter saying whether that call returns or throws; `uuidv4()` is the
 * parameter `freshId`, an id never handed out before; clock readings are
 * parameters. Each asynchronous operation runs as one step.
 */
module Streaming {
  import opened JsValues
  import opened Sessions

  /** What an operation returns, or the error it throws. */
  datatype Result<+T> = Ok(value: T) | Err(failure: Failure)

  /** What a successful `createSession` hands back to its caller. */
  datatype SessionDescriptor = SessionDescriptor(
    id: SessionId, status: Status, streamingUrl: string, webrtcConfig: string, quality: string)

  /** What one run of the rendering loop's `renderFrame` does: stop for good,
      schedule the next frame after a delay (having maybe asked the quality
      controller to analyse), or end the session after a failed frame. */
  datatype TickOutcome =
    | Stopped
    | Rescheduled(delay: real, analysis: Option<PerformanceSample>)
    | TornDown(ended: Result<()>)

  /** `updateSessionMetrics` on a session present in both tables: the frame
      is counted in the session's metrics, its clock gains a frame and reads
      `now`, and a sample is taken exactly when the rendered count reaches a
      multiple of the analysis interval. */
  ghost predicate FrameRecorded(
    t: Table, clocks: map<SessionId, FrameClock>, t': Table, clocks': map<SessionId, FrameClock>,
    id: SessionId, renderTime: real, now: int, analysis: Option<PerformanceSample>)
  {
    && id in t && id in clocks
    && var s := t[id];
       var c := clocks[id];
       var m := RecordFrame(s.metrics, renderTime);
       && t' == t[id := s.(metrics := m)]
       && clocks' == clocks[id := c.(frameCount := c.frameCount + 1, lastFrameTime := now)]
       && (analysis.Some? <==> AnalysisDue(m.framesRendered))
       && (analysis.Some? ==>
             analysis.value == PerformanceSample(
               renderTime,
               m.droppedFrames as real / m.framesRendered as real,
               AverageLatency(t', Some(id))))
  }

  /** The table after `shutdown` has asked every id in `done` to end, where
      the ids in `stuck` had a renderer or network teardown that threw. */
  function AfterTeardown(t: Table, done: set<SessionId>, stuck: set<SessionId>): Table {
    map id | id in t && (id !in done || id in stuck) :: if id in done then t[id].(status := Ending) else t[id]
  }

  /** Asking one more id to end: a stuck one stays, marked as ending; any
      other leaves the table. */
  lemma AfterTeardownStep(t: Table, done: set<SessionId>, stuck: set<SessionId>, id: SessionId)
    requires id in t && id !in done
    ensures id in AfterTeardown(t, done, stuck)
    ensures id in stuck ==>
              AfterTeardown(t, done + {id}, stuck) ==
              AfterTeardown(t, done, stuck)[id := AfterTeardown(t, done, stuck)[id].(status := Ending)]
    ensures id !in stuck ==> AfterTeardown(t, done + {id}, stuck) == AfterTeardown(t, done, stuck) - {id}
  {
    var before := AfterTeardown(t, done, stuck);
    var after := AfterTeardown(t, done + {id}, stuck);
    if id in stuck {
      assert after.Keys == before.Keys;
      assert forall k :: k in after ==> after[k] == before[id := before[id].(status := Ending)][k];
    } else {
      assert after.Keys == before.Keys - {id};
      assert forall k :: k in after ==> after[k] == (before - {id})[k];
    }
  }

  /** Before any id is asked to end, the table is as it was; once every id
      has been asked and none was stuck, the table is empty. */
  lemma AfterTeardownEnds(t: Table, stuck: set<SessionId>)
    ensures AfterTeardown(t, {}, stuck) == t
    ensures t.Keys !! stuck ==> AfterTeardown(t, t.Keys, stuck) == map[]
  {
    assert AfterTeardown(t, {}, stuck).Keys == t.Keys;
    if t.Keys !! stuck {
      assert AfterTeardown(t, t.Keys, stuck).Keys == {};
    }
  }

  /** The entries of `m` whose ids are in `keys`. */
  function Restrict(m: map<SessionId, FrameClock>, keys: set<SessionId>): map<SessionId, FrameClock> {
    map id | id in keys && id in m :: m[id]
  }

  /** Restricting to every id gives the map back; dropping one id from the
      restriction drops it from the result. */
  lemma RestrictFacts(m: map<SessionId, FrameClock>, keys: set<SessionId>, id: SessionId)
    ensures Restrict(m, m.Keys) == m
    ensures Restrict(m, keys - {id}) == Restrict(m, keys) - {id}
    ensures keys <= m.Keys ==> Restrict(m, keys).Keys == keys
  {
    assert Restrict(m, m.Keys).Keys == m.Keys;
    assert Restrict(m, keys - {id}).Keys == Restrict(m, keys).Keys - {id};
  }

  class StreamingManager {
    const maxSessions: int
    var activeSessions: Table
    var sessionMetrics: map<SessionId, FrameClock>
    var totalSessionCount: nat
    var isShuttingDown: bool
    /** Every id `createSession` has stored; uuids are never reused. */
    ghost var issuedIds: set<SessionId>

    /** The invariant every operation keeps. */
    ghost predicate Valid()
      reads this
    {
      ManagerInvariant(activeSessions, sessionMetrics, maxSessions, issuedIds, totalSessionCount)
    }

    /** `new StreamingManager({maxSessions})`; the metrics timer it starts is
        not modelled. */
    constructor (maxSessionsOption: Option<int>)
      ensures Valid()
      ensures maxSessions == MaxSessionsFrom(maxSessionsOption)
      ensures activeSessions == map[] && sessionMetrics == map[]
      ensures totalSessionCount == 0 && !isShuttingDown && issuedIds == {}
    {
      maxSessions := MaxSessionsFrom(maxSessionsOption);
      activeSessions := map[];
      sessionMetrics := map[];
      totalSessionCount := 0;
      isShuttingDown := false;
      issuedIds := {};
    }

    /** `createSession`: admission (capacity, then one session per user),
        then the rendering context and the connection, then the new entry in
        both tables, then the cache write, and only then the status change to
        active. A failing cache write throws but leaves the entry in place,
        still initializing. */
    method CreateSession(
      userId: UserId, environmentId: EnvironmentId, quality: Option<string>, freshId: SessionId,
      rendering: Option<RenderingContext>, connection: Option<NetworkConnection>,
      cacheWriteOk: bool, now: int)
      returns (r: Result<SessionDescriptor>)
      requires Valid()
      requires freshId !in issuedIds
      modifies this
      ensures Valid()
      ensures isShuttingDown == old(isShuttingDown)
      ensures totalSessionCount >= old(totalSessionCount)
      ensures old(Admission(activeSessions, userId, maxSessions)).Some? ==>
                r == Err(old(Admission(activeSessions, userId, maxSessions)).value) && unchanged(this)
      ensures old(|activeSessions|) >= maxSessions ==> r == Err(MaxSessionsReached) && unchanged(this)
      ensures old(Admission(activeSessions, userId, maxSessions)).None? && rendering.None? ==>
                r == Err(CollaboratorFailed(CreateRenderingContext)) && unchanged(this)
      ensures old(Admission(activeSessions, userId, maxSessions)).None? && rendering.Some? && connection.None? ==>
                r == Err(CollaboratorFailed(CreateConnection)) && unchanged(this)
      ensures old(Admission(activeSessions, userId, maxSessions)).None? && rendering.Some? && connection.Some? ==>
                var q := if quality.Some? then quality.value else DefaultQuality;
                var s := NewSession(freshId, userId, environmentId, q, rendering.value, connection.value);
                && activeSessions == old(activeSessions)[freshId := if cacheWriteOk then s.(status := Active) else s]
                && sessionMetrics == old(sessionMetrics)[freshId := FrameClock(now, 0, now)]
                && totalSessionCount == old(totalSessionCount) + 1
                && issuedIds == old(issuedIds) + {freshId}
                && r == if cacheWriteOk
                        then Ok(SessionDescriptor(freshId, Active, connection.value.streamingUrl,
                                                  connection.value.webrtcConfig, q))
                        else Err(CollaboratorFailed(CacheWrite))
      ensures r.Ok? ==> freshId !in old(activeSessions) && |activeSessions| == old(|activeSessions|) + 1
    {
      var q := if quality.Some? then quality.value else DefaultQuality;
      var refusal := Admission(activeSessions, userId, maxSessions);
      if refusal.Some? {
        return Err(refusal.value);
      }
      if rendering.None? {
        return Err(CollaboratorFailed(CreateRenderingContext));
      }
      if connection.None? {
        return Err(CollaboratorFailed(CreateConnection));
      }
      var session := NewSession(freshId, userId, environmentId, q, rendering.value, connection.value);
      Register(session, FrameClock(now, 0, now), cacheWriteOk);
      if !cacheWriteOk {
        return Err(CollaboratorFailed(CacheWrite));
      }
      r := Ok(SessionDescriptor(freshId, Active, connection.value.streamingUrl, connection.value.webrtcConfig, q));
    }

    /** The admitted half of `createSession`: the entry is stored, the cache
        is written, and only when that write returned is the status raised to
        active. */
    method Register(session: Session, clock: FrameClock, cacheWriteOk: bool)
      requires Valid()
      requires session.id !in issuedIds && Admission(activeSessions, session.userId, maxSessions) == None
      requires EntryConsistent(session.id, session, clock)
      modifies this
      ensures Valid()
      ensures activeSessions ==
                old(activeSessions)[session.id := if cacheWriteOk then session.(status := Active) else session]
      ensures sessionMetrics == old(sessionMetrics)[session.id := clock]
      ensures totalSessionCount == old(totalSessionCount) + 1
      ensures issuedIds == old(issuedIds) + {session.id}
      ensures isShuttingDown == old(isShuttingDown)
      ensures |activeSessions| == old(|activeSessions|) + 1
    {
      Store(session, clock);
      if cacheWriteOk {
        SetStatus(session.id, Active);
      }
    }

    /** The two table writes of `createSession`, with the count of sessions
        ever created. */
    method Store(session: Session, clock: FrameClock)
      requires Valid()
      requires session.id !in issuedIds && Admission(activeSessions, session.userId, maxSessions) == None
      requires EntryConsistent(session.id, session, clock)
      modifies this
      ensures Valid()
      ensures activeSessions == old(activeSessions)[session.id := session]
      ensures sessionMetrics == old(sessionMetrics)[session.id := clock]
      ensures totalSessionCount == old(totalSessionCount) + 1
      ensures issuedIds == old(issuedIds) + {session.id}
      ensures isShuttingDown == old(isShuttingDown)
      ensures |activeSessions| == old(|activeSessions|) + 1
    {
      AdmitKeepsInvariant(activeSessions, sessionMetrics, maxSessions, issuedIds, totalSessionCount,
                          session, clock);
      activeSessions := activeSessions[session.id := session];
      sessionMetrics := sessionMetrics[session.id := clock];
      totalSessionCount := totalSessionCount + 1;
      issuedIds := issuedIds + {session.id};
    }

    /** Rewrites the status of a live session; nothing else changes. */
    method SetStatus(id: SessionId, status: Status)
      requires Valid() && id in activeSessions
      modifies this
      ensures Valid()
      ensures activeSessions == old(activeSessions)[id := old(activeSessions)[id].(status := status)]
      ensures sessionMetrics == old(sessionMetrics) && totalSessionCount == old(totalSessionCount)
      ensures issuedIds == old(issuedIds) && isShuttingDown == old(isShuttingDown)
    {
      UpdateKeepsInvariant(activeSessions, sessionMetrics, maxSessions, issuedIds, totalSessionCount,
                           id, activeSessions[id].(status := status));
      activeSessions := activeSessions[id := activeSessions[id].(status := status)];
    }

    /** `endSession`: marks the session as ending, tears down the rendering
        context and then the connection, and only when both returned removes
        the id from both tables and from the cache. A throwing teardown
        leaves the entry in the table with status ending. */
    method EndSession(id: SessionId, destroyOk: bool, closeOk: bool, cacheDeleteOk: bool)
      returns (r: Result<()>)
      requires Valid()
      modifies this
      ensures Valid()
      ensures totalSessionCount == old(totalSessionCount) && issuedIds == old(issuedIds)
      ensures isShuttingDown == old(isShuttingDown)
      ensures id !in old(activeSessions) ==> r == Err(SessionNotFound) && unchanged(this)
      ensures id in old(activeSessions) && destroyOk && closeOk ==>
                && activeSessions == old(activeSessions) - {id}
                && sessionMetrics == old(sessionMetrics) - {id}
                && r == if cacheDeleteOk then Ok(()) else Err(CollaboratorFailed(CacheDelete))
      ensures id in old(activeSessions) && !(destroyOk && closeOk) ==>
                && activeSessions == old(activeSessions)[id := old(activeSessions)[id].(status := Ending)]
                && sessionMetrics == old(sessionMetrics)
                && r == Err(CollaboratorFailed(if destroyOk then CloseConnection else DestroyRenderingContext))
    {
      if id !in activeSessions {
        return Err(SessionNotFound);
      }
      UpdateKeepsInvariant(activeSessions, sessionMetrics, maxSessions, issuedIds, totalSessionCount,
                           id, activeSessions[id].(status := Ending));
      activeSessions := activeSessions[id := activeSessions[id].(status := Ending)];
      if !destroyOk {
        return Err(CollaboratorFailed(DestroyRenderingContext));
      }
      if !closeOk {
        return Err(CollaboratorFailed(CloseConnection));
      }
      RemoveKeepsInvariant(activeSessions, sessionMetrics, maxSessions, issuedIds, totalSessionCount, id);
      activeSessions := activeSessions - {id};
      sessionMetrics := sessionMetrics - {id};
      if !cacheDeleteOk {
        return Err(CollaboratorFailed(CacheDelete));
      }
      r := Ok(());
    }

    /** `changeSessionQuality`: a no-op for the current quality; otherwise
        both collaborators are reconfigured first, and only when both
        returned are the quality and the change counter updated. A failing
        cache refresh throws after the change has been made. */
    method ChangeSessionQuality(id: SessionId, newQuality: string, rendererOk: bool, connectionOk: bool, cacheOk: bool)
      returns (r: Result<()>)
      requires Valid()
      modifies this
      ensures Valid()
      ensures sessionMetrics == old(sessionMetrics) && totalSessionCount == old(totalSessionCount)
      ensures issuedIds == old(issuedIds) && isShuttingDown == old(isShuttingDown)
      ensures id !in old(activeSessions) ==> r == Err(SessionNotFound) && unchanged(this)
      ensures id in old(activeSessions) && old(activeSessions)[id].quality == newQuality ==>
                r == Ok(()) && unchanged(this)
      ensures id in old(activeSessions) && old(activeSessions)[id].quality != newQuality && !(rendererOk && connectionOk) ==>
                r == Err(CollaboratorFailed(if rendererOk then UpdateConnectionQuality else UpdateRenderingQuality))
                && unchanged(this)
      ensures id in old(activeSessions) && old(activeSessions)[id].quality != newQuality && rendererOk && connectionOk ==>
                && activeSessions == old(activeSessions)[id := WithQuality(old(activeSessions)[id], newQuality)]
                && r == if cacheOk then Ok(()) else Err(CollaboratorFailed(CacheRefresh))
    {
      if id !in activeSessions {
        return Err(SessionNotFound);
      }
      var session := activeSessions[id];
      if session.quality == newQuality {
        return Ok(());
      }
      if !rendererOk {
        return Err(CollaboratorFailed(UpdateRenderingQuality));
      }
      if !connectionOk {
        return Err(CollaboratorFailed(UpdateConnectionQuality));
      }
      UpdateKeepsInvariant(activeSessions, sessionMetrics, maxSessions, issuedIds, totalSessionCount,
                           id, WithQuality(session, newQuality));
      activeSessions := activeSessions[id := WithQuality(session, newQuality)];
      if !cacheOk {
        return Err(CollaboratorFailed(CacheRefresh));
      }
      r := Ok(());
    }

    /** `updateSessionMetrics`: counts the frame in both tables, counts it as
        dropped when it took longer than 11.1 ms, and every hundredth frame
        hands a performance sample to the quality controller (the returned
        sample). Nothing happens for an id missing from either table. */
    method UpdateSessionMetrics(id: SessionId, renderTime: real, now: int)
      returns (analysis: Option<PerformanceSample>)
      requires Valid()
      modifies this
      ensures Valid()
      ensures totalSessionCount == old(totalSessionCount) && issuedIds == old(issuedIds)
      ensures isShuttingDown == old(isShuttingDown)
      ensures !(id in old(activeSessions) && id in old(sessionMetrics)) ==> analysis == None && unchanged(this)
      ensures id in old(activeSessions) && id in old(sessionMetrics) ==>
                FrameRecorded(old(activeSessions), old(sessionMetrics), activeSessions, sessionMetrics,
                              id, renderTime, now, analysis)
    {
      if id !in activeSessions || id !in sessionMetrics {
        return None;
      }
      var session := activeSessions[id];
      var clock := sessionMetrics[id];
      var stats := RecordFrame(session.metrics, renderTime);
      UpdateWithClockKeepsInvariant(activeSessions, sessionMetrics, maxSessions, issuedIds, totalSessionCount,
                                    id, session.(metrics := stats),
                                    clock.(frameCount := clock.frameCount + 1, lastFrameTime := now));
      activeSessions := activeSessions[id := session.(metrics := stats)];
      sessionMetrics := sessionMetrics[id := clock.(frameCount := clock.frameCount + 1, lastFrameTime := now)];
      if AnalysisDue(stats.framesRendered) {
        var latency := GetAverageLatency(Some(id));
        analysis := Some(PerformanceSample(renderTime, stats.droppedFrames as real / stats.framesRendered as real, latency));
      } else {
        analysis := None;
      }
    }

    /** One run of `renderFrame` inside `startRenderingLoop`: stop when the
        session is gone or the manager is shutting down; otherwise render and
        send one frame (`frameOk` says whether both returned), record it and
        schedule the next after `NextFrameDelay`; a failed frame ends the
        session. `renderTime` is the elapsed time the clock reports. */
    method RenderTick(id: SessionId, frameOk: bool, renderTime: real, now: int,
                      destroyOk: bool, closeOk: bool, cacheDeleteOk: bool)
      returns (outcome: TickOutcome)
      requires Valid()
      modifies this
      ensures Valid()
      ensures totalSessionCount == old(totalSessionCount) && issuedIds == old(issuedIds)
      ensures isShuttingDown == old(isShuttingDown)
      ensures id !in old(activeSessions) || old(isShuttingDown) ==> outcome == Stopped && unchanged(this)
      ensures id in old(activeSessions) && !old(isShuttingDown) && frameOk ==>
                && outcome.Rescheduled?
                && outcome.delay == NextFrameDelay(renderTime)
                && FrameRecorded(old(activeSessions), old(sessionMetrics), activeSessions, sessionMetrics,
                                 id, renderTime, now, outcome.analysis)
      ensures id in old(activeSessions) && !old(isShuttingDown) && !frameOk ==>
                && outcome.TornDown?
                && (destroyOk && closeOk ==>
                      && activeSessions == old(activeSessions) - {id}
                      && sessionMetrics == old(sessionMetrics) - {id}
                      && outcome.ended == if cacheDeleteOk then Ok(()) else Err(CollaboratorFailed(CacheDelete)))
                && (!(destroyOk && closeOk) ==>
                      && activeSessions == old(activeSessions)[id := old(activeSessions)[id].(status := Ending)]
                      && sessionMetrics == old(sessionMetrics)
                      && outcome.ended == Err(CollaboratorFailed(if destroyOk then CloseConnection else DestroyRenderingContext)))
    {
      if id !in activeSessions || isShuttingDown {
        return Stopped;
      }
      if !frameOk {
        var ended := EndSession(id, destroyOk, closeOk, cacheDeleteOk);
        return TornDown(ended);
      }
      var analysis := UpdateSessionMetrics(id, renderTime, now);
      outcome := Rescheduled(NextFrameDelay(renderTime), analysis);
    }

    /** `getActiveSessionCount`: the size of the session table, which is
        also the number of frame clocks kept. */
    function GetActiveSessionCount(): (n: nat)
      reads this
      ensures Valid() ==> n == |sessionMetrics|
    {
      |activeSessions|
    }

    /** `getTotalSessionCount`: the number of sessions ever stored, which is
        the number of ids ever handed out. */
    function GetTotalSessionCount(): (n: nat)
      reads this
      ensures Valid() ==> n == |issuedIds|
    {
      totalSessionCount
    }

    /** The active count never exceeds the number of sessions ever created,
        nor a positive capacity. */
    lemma SessionCountsBounded()
      requires Valid()
      ensures GetActiveSessionCount() <= GetTotalSessionCount()
      ensures maxSessions >= 0 ==> GetActiveSessionCount() <= maxSessions
    {
      assert activeSessions.Keys <= issuedIds;
      SubsetCardinality(activeSessions.Keys, issuedIds);
    }

    /** No operation ever appends a latency sample, so the published average
        latency is always 0. */
    lemma NoLatencyRecorded(id: SessionId)
      requires Valid()
      ensures AverageLatency(activeSessions, None) == 0.0
      ensures AverageLatency(activeSessions, Some(id)) == 0.0
    {
      AverageLatencyFacts(activeSessions, id);
    }

    /** `getSessionsByQuality`: the count of active sessions per quality. */
    method GetSessionsByQuality() returns (counts: map<string, nat>)
      ensures counts == Histogram(activeSessions, activeSessions.Keys)
      ensures SumValues(counts) == |activeSessions|
      ensures forall q :: q in counts <==> exists id :: id in activeSessions && activeSessions[id].quality == q
      ensures forall q :: q in counts ==> counts[q] >= 1
    {
      counts := map[];
      var remaining := activeSessions.Keys;
      ghost var seen: set<SessionId> := {};
      while remaining != {}
        invariant remaining + seen == activeSessions.Keys && remaining !! seen
        invariant counts == Histogram(activeSessions, seen)
        invariant SumValues(counts) == |seen|
        decreases remaining
      {
        var id :| id in remaining;
        var q := activeSessions[id].quality;
        HistogramAdd(activeSessions, seen, id);
        SumValuesUpdate(counts, q, (if q in counts then counts[q] else 0) + 1);
        counts := counts[q := (if q in counts then counts[q] else 0) + 1];
        seen := seen + {id};
        remaining := remaining - {id};
      }
      HistogramCountsPositive(activeSessions, activeSessions.Keys);
    }

    /** `getDroppedFrameCount`: the dropped frames of all active sessions. */
    method GetDroppedFrameCount() returns (total: nat)
      ensures total as real == DroppedTotal(activeSessions)
      ensures Valid() ==> total as real <= Total(activeSessions, activeSessions.Keys, FramesOf)
    {
      total := 0;
      var remaining := activeSessions.Keys;
      ghost var seen: set<SessionId> := {};
      while remaining != {}
        invariant remaining + seen == activeSessions.Keys && remaining !! seen
        invariant total as real == Total(activeSessions, seen, DroppedOf)
        decreases remaining
      {
        var id :| id in remaining;
        TotalRemove(activeSessions, seen + {id}, DroppedOf, id);
        assert seen + {id} - {id} == seen;
        total := total + activeSessions[id].metrics.droppedFrames;
        seen := seen + {id};
        remaining := remaining - {id};
      }
      if Valid() {
        DroppedTotalWithinFrames(activeSessions);
      }
    }

    /** `getAverageLatency(sessionId)`: one session's mean sample, or with no
        (or an empty) id the mean over all sessions' samples; 0 when there
        is nothing to average. */
    method GetAverageLatency(sessionId: Option<SessionId>) returns (avg: real)
      ensures avg == AverageLatency(activeSessions, sessionId)
    {
      if sessionId.Some? && sessionId.value != "" {
        var id := sessionId.value;
        if id in activeSessions && |activeSessions[id].metrics.latencyMeasurements| > 0 {
          var samples := activeSessions[id].metrics.latencyMeasurements;
          return SumOf(samples) / (|samples| as real);
        }
        return 0.0;
      }
      var totalLatency := 0.0;
      var measurementCount := 0.0;
      var remaining := activeSessions.Keys;
      ghost var seen: set<SessionId> := {};
      while remaining != {}
        invariant remaining + seen == activeSessions.Keys && remaining !! seen
        invariant totalLatency == Total(activeSessions, seen, LatencySumOf)
        invariant measurementCount == Total(activeSessions, seen, LatencyCountOf)
        decreases remaining
      {
        var id :| id in remaining;
        TotalRemove(activeSessions, seen + {id}, LatencySumOf, id);
        TotalRemove(activeSessions, seen + {id}, LatencyCountOf, id);
        assert seen + {id} - {id} == seen;
        var samples := activeSessions[id].metrics.latencyMeasurements;
        if |samples| > 0 {
          totalLatency := totalLatency + SumOf(samples);
          measurementCount := measurementCount + |samples| as real;
        }
        seen := seen + {id};
        remaining := remaining - {id};
      }
      avg := if measurementCount > 0.0 then totalLatency / measurementCount else 0.0;
    }

    /** `shutdown`: raises the shutdown flag, then ends every session that was
        active, each in turn (the source starts them all at once and waits
        for all). Sessions whose renderer or network teardown throws stay in
        the table, marked as ending; the call fails if any teardown threw. */
    method Shutdown(destroyFails: set<SessionId>, closeFails: set<SessionId>, cacheDeleteFails: set<SessionId>)
      returns (r: Result<()>)
      requires Valid()
      modifies this
      ensures Valid()
      ensures isShuttingDown
      ensures totalSessionCount == old(totalSessionCount) && issuedIds == old(issuedIds)
      ensures activeSessions == AfterTeardown(old(activeSessions), old(activeSessions).Keys, destroyFails + closeFails)
      ensures sessionMetrics == Restrict(old(sessionMetrics), activeSessions.Keys)
      ensures r.Ok? <==> old(activeSessions).Keys !! (destroyFails + closeFails + cacheDeleteFails)
      ensures old(activeSessions).Keys !! (destroyFails + closeFails) ==> activeSessions == map[]
    {
      isShuttingDown := true;
      ghost var t0 := activeSessions;
      ghost var clocks0 := sessionMetrics;
      var stuck := destroyFails + closeFails;
      var remaining := activeSessions.Keys;
      ghost var done: set<SessionId> := {};
      r := Ok(());
      AfterTeardownEnds(t0, stuck);
      RestrictFacts(clocks0, clocks0.Keys, "");
      while remaining != {}
        invariant Valid() && isShuttingDown
        invariant remaining + done == t0.Keys && remaining !! done
        invariant activeSessions == AfterTeardown(t0, done, stuck)
        invariant sessionMetrics == Restrict(clocks0, activeSessions.Keys)
        invariant totalSessionCount == old(totalSessionCount) && issuedIds == old(issuedIds)
        invariant r.Ok? <==> done !! (stuck + cacheDeleteFails)
        decreases remaining
      {
        var id :| id in remaining;
        AfterTeardownStep(t0, done, stuck, id);
        RestrictFacts(clocks0, activeSessions.Keys, id);
        ghost var before := activeSessions;
        var ended := EndSession(id, id !in destroyFails, id !in closeFails, id !in cacheDeleteFails);
        if ended.Err? {
          r := ended;
        }
        assert activeSessions.Keys == before.Keys || activeSessions.Keys == before.Keys - {id};
        MoveOne(remaining, done, t0.Keys, id);
        done := done + {id};
        remaining := remaining - {id};
      }
    }
  }

  /** Moving one element from the ids still to visit to the ids visited
      keeps the two a partition of the same set. */
  lemma MoveOne<T>(remaining: set<T>, done: set<T>, all: set<T>, x: T)
    requires remaining + done == all && remaining !! done && x in remaining
    ensures (remaining - {x}) + (done + {x}) == all && (remaining - {x}) !! (done + {x})
  {
  }

  lemma SubsetCardinality<T>(a: set<T>, b: set<T>)
    requires a <= b
    ensures |a| <= |b|
  {
    assert b == a + (b - a);
  }

  /** The admission scenario, first step: a new manager with room for two
      admits user A. */
  method AdmissionScenario(rc: RenderingContext, nc: NetworkConnection, now: int)
    returns (m: StreamingManager, a: Result<SessionDescriptor>)
    ensures a.Ok? && a.value.status == Active && a.value.id == "s1"
    ensures m.Valid() && m.maxSessions == 2 && m.issuedIds == {"s1"}
    ensures m.activeSessions.Keys == {"s1"} && m.activeSessions["s1"].userId == "A"
  {
    m := new StreamingManager(Some(2));
    assert Admission(m.activeSessions, "A", m.maxSessions) == None;
    a := m.CreateSession("A", "env", None, "s1", Some(rc), Some(nc), true, now);
  }

  /** The admission scenario, second step: A is refused a second session,
      and B is admitted. */
  method DuplicateUserScenario(m: StreamingManager, rc: RenderingContext, nc: NetworkConnection, now: int)
    returns (again: Result<SessionDescriptor>, b: Result<SessionDescriptor>)
    requires m.Valid() && m.maxSessions == 2 && m.issuedIds == {"s1"}
    requires m.activeSessions.Keys == {"s1"} && m.activeSessions["s1"].userId == "A"
    modifies m
    ensures again == Err(UserHasActiveSession)
    ensures b.Ok? && b.value.id == "s3"
    ensures m.Valid() && m.maxSessions == 2 && m.issuedIds == {"s1", "s3"}
    ensures m.activeSessions.Keys == {"s1", "s3"}
    ensures m.activeSessions["s1"].userId == "A" && m.activeSessions["s3"].userId == "B"
  {
    assert Admission(m.activeSessions, "A", m.maxSessions) == Some(UserHasActiveSession);
    again := m.CreateSession("A", "env", None, "s2", Some(rc), Some(nc), true, now);
    assert Admission(m.activeSessions, "B", m.maxSessions) == None;
    b := m.CreateSession("B", "env", None, "s3", Some(rc), Some(nc), true, now);
  }

  /** The admission scenario, last step: with two sessions held, user C is
      refused for capacity, and once A's session has ended C is admitted. */
  method CapacityScenario(m: StreamingManager, rc: RenderingContext, nc: NetworkConnection, now: int)
    returns (c: Result<SessionDescriptor>, end: Result<()>, retry: Result<SessionDescriptor>)
    requires m.Valid() && m.maxSessions == 2 && m.issuedIds == {"s1", "s3"}
    requires m.activeSessions.Keys == {"s1", "s3"}
    requires m.activeSessions["s1"].userId == "A" && m.activeSessions["s3"].userId == "B"
    modifies m
    ensures c == Err(MaxSessionsReached)
    ensures end == Ok(())
    ensures retry.Ok?
    ensures m.activeSessions.Keys == {"s3", "s5"}
  {
    assert Admission(m.activeSessions, "C", m.maxSessions) == Some(MaxSessionsReached);
    c := m.CreateSession("C", "env", None, "s4", Some(rc), Some(nc), true, now);
    end := m.EndSession("s1", true, true, true);
    assert m.activeSessions.Keys == {"s3"};
    assert Admission(m.activeSessions, "C", m.maxSessions) == None;
    retry := m.CreateSession("C", "env", None, "s5", Some(rc), Some(nc), true, now);
  }

  // ---------------------------------------------------------------------
  // Two `createSession` calls in flight at once

  /** The store step of `createSession` as written: the admission checks ran
      against `seen`, the table as it stood when the call began; the three
      awaits that follow let other calls change the table to `current`, into
      which the entry is then stored without checking again. */
  function StoreAfterAwaits(seen: Table, current: Table, s: Session, maxSessions: int): Table {
    if Admission(seen, s.userId, maxSessions).Some? then current else current[s.id := s]
  }

  /** The store step with the checks made against the table the entry goes
      into, which is what the manager's one-step `CreateSession` does. */
  function StoreChecked(current: Table, s: Session, maxSessions: int): Table {
    StoreAfterAwaits(current, current, s, maxSessions)
  }

  /** Checking at the store keeps one session per user and the capacity,
      whatever was stored before. */
  lemma StoreCheckedKeepsInvariants(t: Table, s: Session, maxSessions: int)
    requires OneSessionPerUser(t) && WithinCapacity(t, maxSessions) && s.id !in t
    ensures OneSessionPerUser(StoreChecked(t, s, maxSessions))
    ensures WithinCapacity(StoreChecked(t, s, maxSessions), maxSessions)
  {
    if Admission(t, s.userId, maxSessions).None? {
      AdmittedInsertKeepsInvariants(t, s, maxSessions);
    }
  }

  /** Two calls that both begin on an empty table and both pass their checks
      before either stores: for the same user they leave that user with two
      sessions, and with room for one they leave two sessions in the table.
      Checking at the store refuses the second call in both cases. */
  lemma InterleavedCreatesBreakInvariants(rc: RenderingContext, nc: NetworkConnection)
    ensures var first := NewSession("s1", "A", "env", DefaultQuality, rc, nc);
            var second := NewSession("s2", "A", "env", DefaultQuality, rc, nc);
            && !OneSessionPerUser(StoreAfterAwaits(map[], StoreAfterAwaits(map[], map[], first, 100), second, 100))
            && StoreChecked(StoreChecked(map[], first, 100), second, 100) == map["s1" := first]
    ensures var first := NewSession("s1", "A", "env", DefaultQuality, rc, nc);
            var other := NewSession("s2", "B", "env", DefaultQuality, rc, nc);
            && !WithinCapacity(StoreAfterAwaits(map[], StoreAfterAwaits(map[], map[], first, 1), other, 1), 1)
            && StoreChecked(StoreChecked(map[], first, 1), other, 1) == map["s1" := first]
  {
    var first := NewSession("s1", "A", "env", DefaultQuality, rc, nc);
    var second := NewSession("s2", "A", "env", DefaultQuality, rc, nc);
    var other := NewSession("s2", "B", "env", DefaultQuality, rc, nc);
    var t := StoreAfterAwaits(map[], StoreAfterAwaits(map[], map[], first, 100), second, 100);
    assert t == map["s1" := first, "s2" := second];
    assert UserOf(t, "s1") == UserOf(t, "s2") && "s1" != "s2";
    assert Admission(map["s1" := first], "A", 100) == Some(UserHasActiveSession);
    var u := StoreAfterAwaits(map[], StoreAfterAwaits(map[], map[], first, 1), other, 1);
    assert u == map["s1" := first, "s2" := other];
    assert |u| == 2;
  }

  /** Ending the same session twice: the second call finds nothing. */
  method EndSessionTwice(m: StreamingManager, id: SessionId) returns (first: Result<()>, second: Result<()>)
    requires m.Valid()
    modifies m
    ensures id in old(m.activeSessions) ==> first == Ok(())
    ensures second == Err(SessionNotFound)
    ensures m.activeSessions == old(m.activeSessions) - {id}
    ensures m.totalSessionCount == old(m.totalSessionCount)
  {
    first := m.EndSession(id, true, true, true);
    second := m.EndSession(id, true, true, true);
  }

  /** A teardown that threw leaves the session marked ending; a later
      `endSession` whose teardowns both return removes it. */
  method RetryAfterStuckTeardown(m: StreamingManager, id: SessionId)
    returns (stuck: Result<()>, retry: Result<()>)
    requires m.Valid() && id in m.activeSessions
    modifies m
    ensures stuck == Err(CollaboratorFailed(DestroyRenderingContext))
    ensures retry == Ok(())
    ensures m.activeSessions == old(m.activeSessions) - {id}
    ensures m.sessionMetrics == old(m.sessionMetrics) - {id}
  {
    stuck := m.EndSession(id, false, true, true);
    assert id in m.activeSessions && m.activeSessions[id].status == Ending;
    retry := m.EndSession(id, true, true, true);
    assert m.activeSessions == old(m.activeSessions)[id := old(m.activeSessions)[id].(status := Ending)] - {id};
  }
}
