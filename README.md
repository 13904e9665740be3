# VR streaming session manager, modelled in Dafny

This project models the session core of a VR streaming back end. It has two parts.

**The `StreamingManager` class** keeps three kinds of state:
- a table of live sessions;
- a parallel table of per-session frame clocks;
- the count of sessions ever created, and a shutdown flag.

It admits new sessions, subject to a capacity limit and one session per user. It also:
- tears sessions down;
- changes a session's quality tier;
- counts rendered and dropped frames, one rendering tick at a time;
- reports aggregates over the live sessions;
- drains everything on shutdown.

**The hand-written validators of the persisted records:**
- the environment's `assets` list and `settings` object;
- the session's `connectionData` and `metrics` objects;
- the session quality tiers.

The files are:

- `JsValues.dfy`: the JSON-like values the validators receive, with the three pieces of JavaScript they rely on: truthiness, `typeof … === 'number'`, and property access. Reading a property of `null` or `undefined` throws a TypeError.
- `DottedQuad.dfy`: the shape `^(?:[0-9]{1,3}\.){3}[0-9]{1,3}$` as a split-on-dots recognizer. It is proved equal to a reference definition that says "four groups of one to three digits joined by dots".
- `SessionModel.dfy`: the `connectionData` and `metrics` validators and the quality tiers.
- `EnvironmentModel.dfy`: the `assets` and `settings` validators.
- `Sessions.dfy`: the session record and the table, as values. It also holds:
  - the admission checks;
  - the manager's invariant and the lemmas that each kind of table change keeps it;
  - the per-frame bookkeeping;
  - the order-independent sums behind the aggregates.
- `StreamingManager.dfy`: the `StreamingManager` class. Its methods reassign the table fields. Each method states its whole new state and keeps the invariant `Valid()`:
  - the two tables have the same ids;
  - each entry is filed under its own id;
  - dropped frames never exceed frames rendered, and the frame count matches the clock;
  - no user holds two sessions;
  - the table stays within capacity;
  - no session holds a latency sample;
  - the count of sessions ever created equals the number of ids ever issued.

Every collaborator call is a parameter that says whether the call returns or throws. This covers:
- the renderer: create, destroy, re-quality and render;
- the network controller: connect, close, re-quality and send;
- the Redis cache: write, read-modify-write and delete.

`uuidv4()` is a parameter `freshId` that no earlier call has used. Clock readings are parameters too. Each `async` method runs as one step.

## Model

| member | source | states |
|---|---|---|
| Sessions.MaxSessionsFrom | StreamingManager.js:12 | The capacity is the given option when it is truthy, and 100 when it is absent or 0. |
| Sessions.RefusalMessages | StreamingManager.js:30-38 | An admission refusal carries "Maximum concurrent sessions reached" when the table is full, and otherwise "User already has an active session". An unknown id gives "Session not found" (lines 124 and 155). The three messages are distinct. |
| Sessions.AdmissionIff | StreamingManager.js:28-39 | Admission succeeds exactly when the table has fewer entries than the capacity and no entry belongs to the user. A full table is reported as full whoever asks. A user with a session is refused with the duplicate-session error. |
| Sessions.NewSession | StreamingManager.js:61-77 | A new session starts with the given id, user and quality, status initializing, every counter at 0 and no latency samples. |
| Sessions.AdmittedInsertKeepsInvariants | StreamingManager.js:29-80 | Storing a session that passed both checks keeps one session per user and the capacity, and grows the table by exactly one. |
| Sessions.RemoveKeepsInvariants | StreamingManager.js:137-138 | Deleting an id keeps one session per user and the capacity, and shrinks the table by one when the id was present. |
| Sessions.ReplaceKeepsInvariants | StreamingManager.js:128 | Rewriting an entry with the same user keeps both invariants and the set of ids. |
| Sessions.RemoveReadmitsUser | StreamingManager.js:33-138 | Once a user's session is deleted from a table within capacity, that user passes admission again. |
| Sessions.AdmitKeepsInvariant | StreamingManager.js:80-87 | Storing an admitted session and its fresh clock under an id never issued before keeps the manager invariant. The count of sessions ever created rises by one, and so does the table size. |
| Sessions.UpdateKeepsInvariant | StreamingManager.js:128 | Rewriting an entry (a status or quality change) keeps the manager invariant when the entry stays consistent with its clock. |
| Sessions.UpdateWithClockKeepsInvariant | StreamingManager.js:238-245 | Rewriting an entry and its clock together keeps the manager invariant. |
| Sessions.RemoveKeepsInvariant | StreamingManager.js:137-138 | Deleting an id from both tables keeps the manager invariant. |
| Sessions.RecordFrameCounts | StreamingManager.js:238-245 | Recording a frame adds exactly one rendered frame. It adds one dropped frame exactly when the render took more than 11.1 ms. No counter decreases, nothing else changes, and dropped ≤ rendered is kept. |
| Sessions.SlowFramesAllDropped | StreamingManager.js:243-245 | From fresh counters, `n` frames that each take more than 11.1 ms leave `n` rendered and `n` dropped. |
| Sessions.NextFrameDelay | StreamingManager.js:213-214 | The delay is never negative. It never exceeds 1000/90 for a non-negative render time. It is 0 exactly when the render used up the budget, and otherwise it fills the budget. |
| Sessions.DropThresholdBelowBudget | StreamingManager.js:213-243 | The 11.1 ms dropped-frame threshold lies below the 1000/90 ms budget. A frame of 11.105 ms counts as dropped yet still gets a positive delay, and every frame over the budget counts as dropped. |
| Sessions.AnalysisEveryHundredFrames | StreamingManager.js:248 | The quality controller is consulted at every multiple of 100 frames and at no count in between. |
| Sessions.WithQualityChangesOnlyQuality | StreamingManager.js:171-172 | A quality change sets the quality and adds exactly one to the change counter. Every other part of the session stays as it was. |
| Sessions.DroppedTotalWithinFrames | StreamingManager.js:334-340 | The dropped-frame total lies between 0 and the total of rendered frames when that holds session by session. |
| Sessions.RecordFrameDroppedTotal | StreamingManager.js:238-340 | Recording a frame raises the table's dropped-frame total by 1 for a frame over 11.1 ms, and by 0 otherwise. |
| Sessions.AverageLatencyFacts | StreamingManager.js:294-316 | The global average is 0 when no session has samples. An unknown, non-empty id averages 0. Non-negative samples never average below 0. |
| Sessions.HistogramAdd | StreamingManager.js:288-290 | Counting one more session adds one to its quality's count, starting from 0, and leaves the other counts alone. |
| Sessions.HistogramCountsPositive | StreamingManager.js:286-292 | Every quality present in the per-quality counts has a count of at least one. |
| Streaming.AfterTeardownStep | StreamingManager.js:364-365 | Ending one more id during shutdown removes it from the table. If its teardown was stuck, it stays, marked ending. |
| Streaming.AfterTeardownEnds | StreamingManager.js:358-365 | Before any id ends, the table is unchanged. When all ids have ended and none was stuck, the table is empty. |
| Streaming.StreamingManager.constructor | StreamingManager.js:8-18 | A new manager has both tables empty, the count at 0, the flag clear, and the capacity from the option. |
| Streaming.StreamingManager.CreateSession | StreamingManager.js:24-117 | Cases:<br>• A capacity or duplicate-user refusal, or a failed rendering context or connection: the matching error, and nothing changes.<br>• Otherwise the new session (quality defaulting to "2K") and a fresh clock are stored under the fresh id, and the count rises by one.<br>• Then, on a good cache write, the session becomes active and the call returns id, active, URL, config and quality.<br>• On a failed cache write the error is thrown and the entry stays, initializing.<br>The invariant is kept. |
| Streaming.StreamingManager.Register | StreamingManager.js:79-102 | An admitted session is stored with its clock under its new id, and the count rises by one. The stored status is active exactly when the cache write returned, and initializing otherwise. The table grows by one and the invariant is kept. |
| Streaming.StreamingManager.Store | StreamingManager.js:79-86 | The session and its clock are written under the session's id, the count rises by one and the id joins the issued ids. Nothing else changes, and the invariant is kept. |
| Streaming.StreamingManager.SetStatus | StreamingManager.js:102 | Only the status of the given live session changes; the clocks, the counts and the flag stay as they were, and the invariant is kept. |
| Streaming.StreamingManager.EndSession | StreamingManager.js:119-148 | Cases:<br>• Unknown id: "Session not found", and nothing changes.<br>• Both teardowns return: the id leaves both tables, every other entry is untouched, and the count is unchanged. A failed cache delete is still thrown after that.<br>• A teardown throws: the entry stays with status ending, and the error of the first failing teardown is thrown. |
| Streaming.StreamingManager.ChangeSessionQuality | StreamingManager.js:150-186 | Cases:<br>• Unknown id: "Session not found", and nothing changes.<br>• The same quality: success, and nothing changes.<br>• A collaborator fails: its error, and nothing changes.<br>• Otherwise the entry gets the new quality and one more change, and a failing cache refresh is thrown after the change. |
| Streaming.StreamingManager.UpdateSessionMetrics | StreamingManager.js:229-255 | An id missing from either table changes nothing. Otherwise the frame is recorded in the session and its clock. A performance sample is produced exactly when the new frame count is a multiple of 100; it carries the render time, dropped/rendered and the session's average latency. |
| Streaming.StreamingManager.RenderTick | StreamingManager.js:194-222 | Cases:<br>• With the session gone or the manager shutting down, the loop stops and nothing changes.<br>• A good frame is counted in the session's metrics (a dropped one too when it took over 11.1 ms), its clock gains a frame and reads `now`, and the next tick comes after `NextFrameDelay`.<br>• An analysis is returned exactly when the rendered count reaches a multiple of the interval. It carries the render time, the drop ratio and the session's mean latency.<br>• A failed frame ends the session with the outcomes of `EndSession`: removed with its clock, or left marked ending with its clock, and the same error. |
| Streaming.StreamingManager.GetActiveSessionCount | StreamingManager.js:278-280 | Returns the number of live sessions, which under the invariant is also the number of frame clocks. |
| Streaming.StreamingManager.GetTotalSessionCount | StreamingManager.js:282-284 | Returns the count of sessions ever created, which under the invariant is the number of ids ever issued. |
| Streaming.StreamingManager.SessionCountsBounded | StreamingManager.js:278-284 | The active count never exceeds the count of sessions ever created, nor a non-negative capacity. |
| Streaming.StreamingManager.NoLatencyRecorded | StreamingManager.js:294-316 | No operation records a latency sample, so the average latency, global or per session, is always 0. |
| Streaming.StreamingManager.GetSessionsByQuality | StreamingManager.js:286-292 | Cases:<br>• The result is the per-quality count of the live sessions.<br>• Its values sum to the number of live sessions.<br>• A quality is a key exactly when some live session holds it, and every count is at least 1. |
| Streaming.StreamingManager.GetDroppedFrameCount | StreamingManager.js:334-340 | The result is the natural-number sum of dropped frames over the live sessions, whatever the visiting order. It is at most the rendered-frame total. |
| Streaming.StreamingManager.GetAverageLatency | StreamingManager.js:294-316 | The result is the average of one session's samples for a non-empty id, or of all samples together otherwise; it is 0 when there is nothing to average. |
| Streaming.StreamingManager.Shutdown | StreamingManager.js:358-368 | The flag is raised and every id that was live is ended. Ids whose renderer or network teardown threw stay, marked ending, and keep their clocks; every other id is gone with its clock. The call succeeds exactly when no teardown or cache delete failed, and leaves an empty table when no teardown threw. |
| Streaming.AdmissionScenario | StreamingManager.js:24-111 | A new manager with room for two admits A, whose session comes back active. |
| Streaming.DuplicateUserScenario | StreamingManager.js:24-111 | With A holding a session, A is refused a second one, and B is admitted. |
| Streaming.CapacityScenario | StreamingManager.js:24-148 | With two sessions held, C is refused for capacity. After A's session ends, C is admitted. |
| Streaming.RetryAfterStuckTeardown | StreamingManager.js:119-138 | A renderer teardown that throws leaves the session marked ending. A later end whose teardowns both return removes it and its clock and succeeds. |
| Streaming.EndSessionTwice | StreamingManager.js:119-138 | Ending a live session succeeds. Ending it again gives "Session not found", and the session count is unchanged. |
| Streaming.StoreCheckedKeepsInvariants | StreamingManager.js:29-80 | Checking admission against the table the entry goes into keeps one session per user and the capacity. |
| Streaming.InterleavedCreatesBreakInvariants | StreamingManager.js:29-80 | Two concurrent calls that both pass the checks before either stores have two effects. For one user, that user ends up with two sessions. With room for one, two sessions end up stored. The corrected store refuses the second call. |
| DottedQuad.MatchesIsRegexShape | session.model.js:46 | The recognizer accepts a string exactly when it is four groups of one to three ASCII digits joined by dots. |
| DottedQuad.OutOfRangeGroupsAccepted | session.model.js:46 | "999.999.999.999" has the shape: groups are not range-checked. |
| DottedQuad.WrongShapesRejected | session.model.js:46 | These are refused: three groups, five groups, a four-digit group, and the empty string. |
| SessionModel.QualityNameRoundTrip | session.model.js:82-86 | The four tiers and their names correspond one to one, and the default tier is "2K". |
| SessionModel.OnlyIpRecord | session.model.js:45-48 | A record holding only a string `ip` is refused with "Invalid IP address format" exactly when the string is non-empty and does not match. |
| SessionModel.IpStringAcceptedIffRegexShape | session.model.js:45-48 | For a non-empty string `ip`, the record is accepted exactly when the string has the dotted-quad shape. |
| SessionModel.IpQuirks | session.model.js:46-48 | "999.999.999.999" and "" are accepted; "1.2.3" is refused. |
| SessionModel.SingletonArrayIpLikeString | session.model.js:46 | Because `test` converts its argument to a string, an array holding one non-empty string is judged as that string. |
| SessionModel.NumericIpRejected | session.model.js:46-47 | A non-zero number as `ip` is always refused. |
| SessionModel.NumericConnectionFields | session.model.js:49-54 | A `bandwidth` or `latency` of 0 passes. A truthy non-number fails with its field's message, and `bandwidth` is checked first. |
| SessionModel.ConnectionDataAcceptedIff | session.model.js:45-55 | A record is accepted exactly when: a truthy `ip` has the shape, and a truthy `bandwidth` or `latency` is a number. The errors come in source order: a TypeError for an `ip` that cannot be converted to a string, then "Invalid IP address format", then "Bandwidth must be a number" once `ip` passes, then "Latency must be a number" once `ip` and `bandwidth` pass. |
| SessionModel.ThrowingIpNeverMatches | session.model.js:46 | A value whose string conversion throws never has the address shape, so `test` has one outcome for each value. |
| SessionModel.IpWithOwnToStringThrows | session.model.js:46 | An `ip` object with its own `toString` key, alone or inside an array, makes the check throw a TypeError instead of the format error. |
| SessionModel.DefaultConnectionDataValid | session.model.js:43-55 | The default `{}` is accepted. |
| SessionModel.CheckNumericFieldsIff | session.model.js:69-74 | The field loop passes exactly when every listed field is absent or a number. Otherwise it throws "<field> must be a number" for the first field that is neither, and every earlier field was fine. |
| SessionModel.MetricsAcceptedIff | session.model.js:68-75 | A record is accepted exactly when each of the four counters is absent or a number, and otherwise the error names one of them. A nullish record throws a TypeError. |
| SessionModel.CheckNumericFieldsIgnores | session.model.js:69-74 | A field outside the list has no influence on the loop. |
| SessionModel.MetricsIgnoreOtherFields | session.model.js:60-75 | `connectionQuality` and unknown fields do not affect the verdict. |
| SessionModel.DefaultMetricsValid | session.model.js:60-75 | The default metrics record is accepted. |
| SessionModel.NonNumericCountersRejected | session.model.js:69-74 | A `null` counter, or a string or boolean one, is refused, naming the first offending field in list order. |
| EnvironmentModel.CheckAssetIff | environment.model.js:38-45 | One asset passes exactly when it has a truthy `url` and `checksum`, a numeric `size`, and a `type` of model, texture or audio. |
| EnvironmentModel.CheckAssetsIff | environment.model.js:38-45 | The list passes exactly when every asset is good. Otherwise the error is that of the first bad asset, all earlier ones being good. |
| EnvironmentModel.AssetsAcceptedIff | environment.model.js:34-46 | Exactly the arrays of good assets are accepted, the empty array among them. Every non-array gets "Assets must be an array". |
| EnvironmentModel.AssetTypeExamples | environment.model.js:39-44 | A `size` of 0 is fine. `script` and `animation` get "Invalid asset type". |
| EnvironmentModel.StructureCheckedBeforeType | environment.model.js:39-44 | An asset with an unknown type and a missing checksum gets the structure error, not the type error. |
| EnvironmentModel.SizeMustBeANumber | environment.model.js:39-41 | A string `size` fails the structure check. |
| EnvironmentModel.SettingsAcceptedIff | environment.model.js:57-64 | Cases, for every value:<br>• A nullish value throws a TypeError.<br>• Otherwise the settings pass exactly when `maxUsers` is a number of at least 1 and the quality is "4K", "2K" or "1080p".<br>• A bad `maxUsers` gets "maxUsers must be a positive number".<br>• With a good `maxUsers`, a bad quality gets "Invalid quality setting". |
| EnvironmentModel.SettingQualitiesAreTiersBut720p | environment.model.js:61-63 | A quality is admitted exactly when it is a string naming a session tier other than 720p. |
| EnvironmentModel.SettingsAdmitTiersBut720p | environment.model.js:61-63 | Every session quality tier except 720p is an admissible settings quality. |
| EnvironmentModel.DefaultSettingsValid | environment.model.js:51-64 | The default settings pass, and so does a `maxUsers` of 1.5. A `maxUsers` of 0.5, or the string "10", fails. |

## Left out

- Timers: the `setTimeout` self-rescheduling of the rendering loop and the five-second `setInterval` metrics publisher are not modelled. `RenderTick` is one run of `renderFrame`, and the delay it returns is what would be scheduled.
- The wall clock: `performance.now()` and `Date.now()` become the parameters `renderTime` and `now`.
- `getAverageFrameRate` is not modelled. It divides each clock's `frameCount` by the time elapsed since its `startTime`, read from the wall clock with `Date.now()`, and it is used only by the metrics publisher.
- `loadEnvironment` is not modelled because it returns fixed mock data and cannot fail. The `createdAt` timestamp and the cached `nodeId` are also not modelled.
- The renderer, network controller, quality controller and Redis cache are not part of this model. Each call is a parameter saying whether it returns or throws. `analyzePerformance` is taken to return, so the model does not capture a throw from it that would end the session. The returned `PerformanceSample` stands for the call.
- Streaming.StreamingManager.CreateSession: the handles already created when a later step fails are not modelled (the source does not release them either). Starting the rendering loop is not modelled either; its first tick is `RenderTick`.
- Streaming.StreamingManager.Shutdown: the sessions are ended one after another. The source starts all teardowns at once with `Promise.all` and rejects with the first failure. The model's result is an error exactly when some teardown failed, but it does not say which error comes first. After the first rejection, `shutdown` returns while the other `endSession` calls keep running. The model's new state is the state once every teardown has settled, not the state at the moment `shutdown` rejects.
- Streaming.StreamingManager.GetSessionsByQuality: the source counts into a plain object `{}`, which inherits `Object.prototype`. The model counts into a map, so its sum and key contracts do not describe the source for a quality naming an inherited member. A quality of "__proto__" does not create a key. A quality of "constructor" or "toString" starts from the inherited function, so its count becomes a string.
- SessionModel.ToStringThrows: the string conversion inside `test` is modelled only for stored JSON data, where no value is a function. Values holding functions are not modelled. For stored data the conversion throws exactly when an object with its own `toString` key appears in `ip`, alone or inside an array. An own `valueOf` key changes nothing, because `toString` is tried first.
- Concurrency between calls is not modelled: each `async` method runs as one step. The consequence for `createSession` is recorded under Findings.
- JavaScript numbers are Dafny reals, with no NaN, infinities or rounding. `maxSessions` is an integer; a fractional or non-numeric option is not modelled.
- Teardown failures: removal is not guaranteed once requested, although the design says a requested removal always succeeds. When the renderer or the network teardown throws, `endSession` rethrows, and the entry stays in the table, marked ending, until a later `endSession` whose teardowns both return. That later call can be a retry, `shutdown` or a failing render tick. `EndSession`, `RenderTick` and `Shutdown` follow this code, and `RetryAfterStuckTeardown` shows the retry removing the entry.
- auth.controller.js, auth.middleware.js, auth.routes.js, validation.middleware.js, logger.js, redis.js, database.js, index.js, srcindex.js, user.model.js, asset.model.js and streaming-node.model.js are not part of this model. They hold request handlers and middleware around bcrypt, JWT, Redis, e-mail and the database, with their own checks (an unverified e-mail, a token of the wrong type or not the stored one, an inactive user, a missing admin role). They also hold logging and connection configuration, declarative validation rules and column constraints. None of it reads or writes the session table or the validators modelled here.

## Findings

| source | as written | input that shows it | evidently intended | confidence | as-written member | corrected member |
|---|---|---|---|---|---|---|
| StreamingManager.js:29-80 | The capacity and one-session-per-user checks run before three awaits. The entry is then stored without a second check, so concurrent calls can each pass against the same table. | Two `createSession` calls for user "A" that both reach their awaits before either stores. The same happens for users "A" and "B" with `maxSessions` 1. | At most one session per user and at most `maxSessions` sessions, checked against the table the entry goes into. | not executed; follows from the await points | Streaming.StoreAfterAwaits, Streaming.InterleavedCreatesBreakInvariants | Streaming.StoreChecked, Streaming.StoreCheckedKeepsInvariants |
