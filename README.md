# ijkplayer JNI glue, modelled in Dafny

This project models the native half of the Android class
`tv.danmaku.ijk.media.player.IjkMediaPlayer` in
`ijkmediaplayer/jni/ijkplayer/android/ijkplayer_jni.c`. It covers three parts:

- **The handle registry.** The Java object's `mNativeMediaPlayer` slot holds
  at most one engine player (`IjkMediaPlayer *`). The engine keeps a
  reference count in every player. `jni_get_media_player` borrows the player
  under the mutex. `jni_set_media_player` swaps the slot under the mutex and
  then drops the previous occupant's reference. Every entry point gives back
  the borrowed reference on every exit path.
- **The call-guard wrappers and the lifecycle.** This covers every
  `IjkMediaPlayer_*` entry point: which Java exception each one leaves
  pending, whether it calls the engine, and what it returns. It also covers
  `native_setup`, `release` and `native_finalize` as transitions on the
  registry.
- **The event pump.** This is the `switch` that turns an engine message into
  a `postEventFromNative` call. It also covers the loop in
  `native_message_loop`, which posts every dequeued message until the first
  negative return value.

Layout:

- `registry.dfy` (module `Registry`): the registry as a pure state machine.
  - Its state is the slot, the count of every player, the players torn
    down, the players shut down, the next pointer `ijkmp_create` returns, and
    a ghost multiset of the references held outside the slot.
  - `Valid` is the bookkeeping invariant. Every count equals the number of
    holders of that player. A player is torn down exactly when its count is
    0. The slot never names an unknown player.
  - There is one function per mutex-guarded section or engine step.
- `jni.dfy` (module `Jni`): the imperative model.
  - Class `IjkMediaPlayer` holds the slot, the counts, a log of the engine
    operations delegated, and the list of events posted.
  - Every entry point is a method proved against the `Registry` functions.
  - The module ends with a whole session on one object: setup, play,
    release, use after release, finalize.
- `call_guard.dfy` (module `CallGuard`): what each wrapper decides, as a
  function of whether a player is installed and what the engine returns.
- `status.dfy` (module `Status`): the pending Java exception and the status
  classification of `IJK_CHECK_MPRET_GOTO`. It has two versions: the macro
  as written and as intended (see Findings).
- `messages.dfy` (module `Messages`): the message-to-event translation.
- `pump.dfy` (module `Pump`): what the loop consumes and posts, as functions
  of the sequence of `ijkmp_get_msg` results.
- `optional.dfy` (module `Optional`): an `Option` type.

Each mutex-guarded section is modelled as one atomic step. The engine is an
external collaborator, so the model passes its answers in as parameters:

- the status `ijkmp_set_data_source` and `ijkmp_prepare_async` return;
- `ijkmp_is_playing`, the position and the duration;
- whether `ijkmp_create` and `GetStringUTFChars` succeed;
- the results of `ijkmp_get_msg`.

Three points of the code's behaviour that shape the model:

- **Who drops the previous occupant's reference.** `jni_set_media_player`
  drops the previous occupant's reference itself, after unlocking (lines
  80-83), so `Registry.Install` includes that decrement and its callers
  never drop it again.
- **Wrappers that only log.** `setVideoSurface`, `isPlaying`,
  `getCurrentPosition`, `getDuration`, `reset` and `native_message_loop`
  pass a NULL exception class to `JNI_CHECK_GOTO` when no player is
  installed (lines 116, 192, 206, 220, 247, 300). The model reads that as
  "log and jump", so these return their default without raising. Only
  setDataSource, prepareAsync, start, stop, pause and seekTo raise
  IllegalStateException on an empty slot.
- **The status check.** The wrappers classify the engine status so that a
  non-negative status is success. The macro as written does otherwise (see
  Findings); the model keeps both versions.

## Model

| member | source | states |
|---|---|---|
| Status.CheckMpRet | ijkmediaplayer/jni/ijkplayer/android/ijkplayer_jni.c:36-39 | No error iff the status is non-negative. IllegalState iff it is `EIJK_INVALID_STATE`. OutOfMemory iff it is `EIJK_OUT_OF_MEMORY`. IjkMediaException iff it is any other negative status. Never IllegalArgument. |
| Status.CheckMpRetAsWritten | ijkmediaplayer/jni/ijkplayer/android/ijkplayer_jni.c:36-39 | The macro as written. It reports no error iff the status is negative and neither named code. It raises IjkMediaException iff the status is non-negative. The named codes map to IllegalState and OutOfMemory. `AsWrittenRaisesOnSuccess` and `AsWrittenInvertsGenericCase` compare it with `CheckMpRet`. |
| Status.AsWrittenRaisesOnSuccess | ijkmediaplayer/jni/ijkplayer/android/ijkplayer_jni.c:39 | A successful engine call (status 0) raises IjkMediaException through the macro as written; the intended classification reports no error. |
| Status.AsWrittenInvertsGenericCase | ijkmediaplayer/jni/ijkplayer/android/ijkplayer_jni.c:36-39 | Outside the two named codes, the macro as written raises exactly when the intended check reports success, and is silent exactly when the intended check raises. |
| Status.AsWrittenAgreesOnNamedCodes | ijkmediaplayer/jni/ijkplayer/android/ijkplayer_jni.c:37-38 | Both versions map `EIJK_INVALID_STATE` and `EIJK_OUT_OF_MEMORY` the same way. |
| Messages.Translate | ijkmediaplayer/jni/ijkplayer/android/ijkplayer_jni.c:312-346 | A message posts an event iff its kind has a case in the switch; the `default:` case posts nothing. |
| Messages.TranslationTable | ijkmediaplayer/jni/ijkplayer/android/ijkplayer_jni.c:312-346 | The fixed table: FLUSH posts `(MEDIA_NOP, 0, 0)` and is not dropped. ERROR posts `(MEDIA_ERROR, MEDIA_ERROR_IJK_PLAYER, arg1)`. The buffering start and end messages post `MEDIA_INFO` with their info code. Size, SAR and buffering-update messages forward both arguments. Unknown kinds post nothing. |
| Messages.ForwardingKinds | ijkmediaplayer/jni/ijkplayer/android/ijkplayer_jni.c:325-339 | Video-size, SAR and buffering-update messages pass arg1 and arg2 through unchanged. |
| Messages.TranslateKeepsKind | ijkmediaplayer/jni/ijkplayer/android/ijkplayer_jni.c:312-342 | The translation is invertible on known kinds: the message kind can be read back from every posted event. |
| Messages.TranslateInjectiveOnKinds | ijkmediaplayer/jni/ijkplayer/android/ijkplayer_jni.c:312-342 | Two messages of different kinds never post the same event. |
| Pump.Consumed | ijkmediaplayer/jni/ijkplayer/android/ijkplayer_jni.c:302-308 | The loop consumes a prefix of the dequeue results. Every consumed result is non-negative. The loop stops only at the first negative result or at the end of the input. |
| Pump.Emit | ijkmediaplayer/jni/ijkplayer/android/ijkplayer_jni.c:312-346 | What one dequeued message posts: at most one event, and exactly one iff its kind has a case in the switch. |
| Pump.Posted | ijkmediaplayer/jni/ijkplayer/android/ijkplayer_jni.c:302-347 | The events posted across the loop, never more than the messages dequeued. `PostedAppend`, `PostedOneToOne` and `PostedExactlyTranslations` state their order and content. |
| Pump.ConsumedUpTo | ijkmediaplayer/jni/ijkplayer/android/ijkplayer_jni.c:302-308 | The consumed results are exactly the prefix before the first negative result. |
| Pump.EndOfStreamStops | ijkmediaplayer/jni/ijkplayer/android/ijkplayer_jni.c:305-307 | Nothing after the first negative result is ever looked at. |
| Pump.PostedAppend | ijkmediaplayer/jni/ijkplayer/android/ijkplayer_jni.c:302-347 | Posting preserves order: the events of a concatenation are the concatenated events. |
| Pump.UnknownSkipped | ijkmediaplayer/jni/ijkplayer/android/ijkplayer_jni.c:343-345 | An unknown kind is skipped without ending the loop; what follows it is still posted. |
| Pump.PostedOneToOne | ijkmediaplayer/jni/ijkplayer/android/ijkplayer_jni.c:302-347 | When every kind is known, the k-th event posted is the translation of the k-th message dequeued. |
| Pump.PostedExactlyTranslations | ijkmediaplayer/jni/ijkplayer/android/ijkplayer_jni.c:302-347 | An event is posted iff it is the translation of some consumed message. |
| Registry.HeldIsAlive | ijkmediaplayer/jni/ijkplayer/android/ijkplayer_jni.c:55-66 | A player held by the slot or by a borrower exists, is not torn down, and has a count of at least 1. |
| Registry.IncRef | ijkmediaplayer/jni/ijkplayer/android/ijkplayer_jni.c:61 | Definition of `ijkmp_inc_ref`: the player's count rises by one. Its use is stated by `AcquireBorrows` and `SwapValid`. |
| Registry.DecRef | ijkmediaplayer/jni/ijkplayer/android/ijkplayer_jni.c:82 | Definition of `ijkmp_dec_ref`: the holder gives up its reference, and the player is torn down at count 0; NULL is a no-op. `DecRefValid` states its effects and that it keeps the invariant. |
| Registry.Create | ijkmediaplayer/jni/ijkplayer/android/ijkplayer_jni.c:275 | Definition of `ijkmp_create`: a fresh player with one reference for the caller, or NULL when allocation fails. `CreateValid` states its effects. |
| Registry.Acquire | ijkmediaplayer/jni/ijkplayer/android/ijkplayer_jni.c:55-66 | Definition of `jni_get_media_player`: read the slot and borrow its player. `AcquireBorrows` and `AcquireThenDrop` state its effects. |
| Registry.Swap | ijkmediaplayer/jni/ijkplayer/android/ijkplayer_jni.c:70-77 | Definition of the locked section of `jni_set_media_player`. `SwapValid` states its effects. |
| Registry.Install | ijkmediaplayer/jni/ijkplayer/android/ijkplayer_jni.c:68-86 | Definition of `jni_set_media_player`: swap, then drop the previous occupant. `InstallEffects` and `ReinstallIsIdentity` state its effects. |
| Registry.Shutdown | ijkmediaplayer/jni/ijkplayer/android/ijkplayer_jni.c:237 | Definition of `ijkmp_shutdown`: mark the player shut down. `ShutdownValid` states that it keeps the invariant. |
| Registry.Setup | ijkmediaplayer/jni/ijkplayer/android/ijkplayer_jni.c:272-282 | Definition of `native_setup` on the registry. `SetupInstallsSoleReference` states its effects. |
| Registry.Release | ijkmediaplayer/jni/ijkplayer/android/ijkplayer_jni.c:229-241 | Definition of `release` on the registry. `ReleaseClosedForm`, `ReleaseRetires`, `ReleaseEmptyIsNoop`, `ReleaseIdempotent` and `BorrowOutlivesRelease` state its effects. |
| Registry.AcquireBorrows | ijkmediaplayer/jni/ijkplayer/android/ijkplayer_jni.c:55-66 | From an empty slot, acquire returns NULL and changes nothing. Otherwise it returns the stored player with its count raised by exactly one, held by the caller; nothing else changes and the invariant holds. |
| Registry.AcquireThenDrop | ijkmediaplayer/jni/ijkplayer/android/ijkplayer_jni.c:95-109 | Borrowing and then dropping the borrow restores the registry exactly. |
| Registry.DecRefValid | ijkmediaplayer/jni/ijkplayer/android/ijkplayer_jni.c:80-83 | Dropping a held reference keeps the invariant. It lowers only that player's count, by one. The player is torn down exactly when that was its last reference, and it was not torn down before. |
| Registry.ShutdownValid | ijkmediaplayer/jni/ijkplayer/android/ijkplayer_jni.c:237 | Shutting down a known player keeps the invariant. |
| Registry.SwapValid | ijkmediaplayer/jni/ijkplayer/android/ijkplayer_jni.c:70-77 | The locked section of set keeps the invariant. It counts the slot's new reference to `mp`. The previous occupant's slot reference passes to the caller. |
| Registry.InstallEffects | ijkmediaplayer/jni/ijkplayer/android/ijkplayer_jni.c:68-86 | Install keeps the invariant, and afterwards the slot holds `mp`. `mp` gains one count. The previous occupant loses one and is torn down if that was its last reference. No other player, holder or shut-down mark changes. The previous occupant is returned. |
| Registry.ReinstallIsIdentity | ijkmediaplayer/jni/ijkplayer/android/ijkplayer_jni.c:68-86 | Reinstalling the player any occupied slot already holds changes nothing. |
| Registry.CreateValid | ijkmediaplayer/jni/ijkplayer/android/ijkplayer_jni.c:275 | `ijkmp_create` returns a non-NULL player that nobody knew before, with one reference for the caller, and keeps the invariant. |
| Registry.SetupInstallsSoleReference | ijkmediaplayer/jni/ijkplayer/android/ijkplayer_jni.c:272-282 | If create fails, setup changes nothing. Otherwise the new player ends up in the slot with count 1, so the slot holds its only reference. The previous occupant loses the slot's reference, the invariant holds, and nothing else changes. |
| Registry.ReleaseClosedForm | ijkmediaplayer/jni/ijkplayer/android/ijkplayer_jni.c:229-241 | Release on an occupied slot empties the slot. It marks the player shut down and lowers its count by one. |
| Registry.ReleaseRetires | ijkmediaplayer/jni/ijkplayer/android/ijkplayer_jni.c:229-241 | Release on a live slot keeps the invariant. The player is shut down and the slot is empty. The player's count falls by exactly one and it is torn down iff that was the last reference. Borrowers are untouched. |
| Registry.ReleaseEmptyIsNoop | ijkmediaplayer/jni/ijkplayer/android/ijkplayer_jni.c:232-234 | Release on an empty slot changes nothing. |
| Registry.ReleaseIdempotent | ijkmediaplayer/jni/ijkplayer/android/ijkplayer_jni.c:284-289 | A second release, or finalize after release, changes nothing: teardown happens at most once. |
| Registry.BorrowOutlivesRelease | ijkmediaplayer/jni/ijkplayer/android/ijkplayer_jni.c:229-241 | A borrow taken before another thread's release still holds a live, shut-down player after it. The borrower's own drop tears the player down exactly when the slot and that borrow were its only references. |
| CallGuard.Guard | ijkmediaplayer/jni/ijkplayer/android/ijkplayer_jni.c:88-227 | The engine is called only when a player is installed. A call that skips the engine returns 0. IjkMediaException comes only after an engine call that set a source or prepared and returned a negative status. IllegalArgument never reaches the engine. |
| CallGuard.Answer | ijkmediaplayer/jni/ijkplayer/android/ijkplayer_jni.c:187-227 | What a wrapper returns once the engine answered: isPlaying gives `JNI_TRUE` iff the engine says yes and `JNI_FALSE` otherwise (line 194). Position and duration are passed through (lines 208, 222). Every non-query returns 0. |
| CallGuard.EmptySlotDefaults | ijkmediaplayer/jni/ijkplayer/android/ijkplayer_jni.c:88-227 | With no player installed, no wrapper calls the engine. setDataSource, prepareAsync, start, stop, pause and seekTo raise IllegalState (after the null-path check). setVideoSurface and reset only log and raise nothing. The queries return false or 0 without raising. |
| CallGuard.NullPathFirst | ijkmediaplayer/jni/ijkplayer/android/ijkplayer_jni.c:95-97 | A null path raises IllegalArgument before the player check, and the engine is not called. |
| CallGuard.StatusIgnored | ijkmediaplayer/jni/ijkplayer/android/ijkplayer_jni.c:112-253 | start, stop, pause, seekTo, setVideoSurface and reset ignore what the engine returns. |
| CallGuard.StatusMapped | ijkmediaplayer/jni/ijkplayer/android/ijkplayer_jni.c:103-133 | setDataSource and prepareAsync raise exactly what the status classification says, after the call. |
| CallGuard.QueriesPassThrough | ijkmediaplayer/jni/ijkplayer/android/ijkplayer_jni.c:187-227 | With a player installed, isPlaying returns `JNI_TRUE`/`JNI_FALSE` as the engine answers. Position and duration pass through. None of them raises. |
| Jni.IjkMediaPlayer.IncRef | ijkmediaplayer/jni/ijkplayer/android/ijkplayer_jni.c:61 | The count of a live player rises by one. |
| Jni.IjkMediaPlayer.DecRef | ijkmediaplayer/jni/ijkplayer/android/ijkplayer_jni.c:82 | A holder's drop does what `Registry.DecRef` specifies and keeps the invariant; NULL is a no-op. |
| Jni.IjkMediaPlayer.Create | ijkmediaplayer/jni/ijkplayer/android/ijkplayer_jni.c:275 | Does what `Registry.Create` specifies and keeps the invariant. It returns non-NULL iff allocation succeeded, and the caller holds the new player. |
| Jni.IjkMediaPlayer.Shutdown | ijkmediaplayer/jni/ijkplayer/android/ijkplayer_jni.c:237 | Marks a live player shut down and keeps the invariant. |
| Jni.IjkMediaPlayer.Delegate | ijkmediaplayer/jni/ijkplayer/android/ijkplayer_jni.c:103-247 | One `ijkmp_*` engine call on a live player. It is appended to the call log, and its result is the engine's answer. |
| Jni.IjkMediaPlayer.GetMsg | ijkmediaplayer/jni/ijkplayer/android/ijkplayer_jni.c:305 | One `ijkmp_get_msg` on a live player. The result is the next dequeue result. |
| Jni.IjkMediaPlayer.PostEvent | ijkmediaplayer/jni/ijkplayer/android/ijkplayer_jni.c:290-294 | One `postEventFromNative` call. The event is appended to the posted list. |
| Jni.IjkMediaPlayer.GetMediaPlayer | ijkmediaplayer/jni/ijkplayer/android/ijkplayer_jni.c:55-66 | The new state and the result are `Registry.Acquire` of the old state. The result is the old slot and, when non-NULL, a live player. The invariant holds. |
| Jni.IjkMediaPlayer.SetMediaPlayer | ijkmediaplayer/jni/ijkplayer/android/ijkplayer_jni.c:68-86 | The new state and the returned previous occupant are `Registry.Install` of the old state. The invariant holds and the references held outside the slot are unchanged. |
| Jni.IjkMediaPlayer.Drop | ijkmediaplayer/jni/ijkplayer/android/ijkplayer_jni.c:108-109 | The shared `LABEL_RETURN` drop restores the state the wrapper started from. |
| Jni.IjkMediaPlayer.SetDataSource | ijkmediaplayer/jni/ijkplayer/android/ijkplayer_jni.c:88-110 | The registry is unchanged on every path (net-zero borrow). The pending exception and the engine calls made are exactly what `CallGuard.Guard` decides. |
| Jni.IjkMediaPlayer.SetVideoSurface | ijkmediaplayer/jni/ijkplayer/android/ijkplayer_jni.c:112-123 | The registry is unchanged. The engine is called on the installed player iff there is one; an empty slot is only logged, and `CallGuard.EmptySlotDefaults` states that nothing is raised then. |
| Jni.IjkMediaPlayer.PrepareAsync | ijkmediaplayer/jni/ijkplayer/android/ijkplayer_jni.c:125-137 | The registry is unchanged. The exception and the engine calls are as `CallGuard.Guard` decides. |
| Jni.IjkMediaPlayer.Command | ijkmediaplayer/jni/ijkplayer/android/ijkplayer_jni.c:139-185 | The shape of start, stop, pause and seekTo: the registry is unchanged, and the exception and the engine calls are as `CallGuard.Guard` decides. |
| Jni.IjkMediaPlayer.Start | ijkmediaplayer/jni/ijkplayer/android/ijkplayer_jni.c:139-149 | The registry is unchanged. IllegalState and no engine call without a player. Otherwise one `start` call on the installed player, with its status ignored. |
| Jni.IjkMediaPlayer.Stop | ijkmediaplayer/jni/ijkplayer/android/ijkplayer_jni.c:151-161 | As Start, for `ijkmp_stop`. |
| Jni.IjkMediaPlayer.Pause | ijkmediaplayer/jni/ijkplayer/android/ijkplayer_jni.c:163-173 | As Start, for `ijkmp_pause`. |
| Jni.IjkMediaPlayer.SeekTo | ijkmediaplayer/jni/ijkplayer/android/ijkplayer_jni.c:175-185 | As Start, for `ijkmp_seek_to(msec)`. |
| Jni.IjkMediaPlayer.Query | ijkmediaplayer/jni/ijkplayer/android/ijkplayer_jni.c:187-227 | The shape of the three queries: the registry is unchanged, and the result and the engine calls are as `CallGuard.Guard` decides. |
| Jni.IjkMediaPlayer.IsPlaying | ijkmediaplayer/jni/ijkplayer/android/ijkplayer_jni.c:187-199 | Returns true iff a player is installed and the engine says it is playing. The registry is unchanged. The engine is asked only when a player is installed. |
| Jni.IjkMediaPlayer.GetCurrentPosition | ijkmediaplayer/jni/ijkplayer/android/ijkplayer_jni.c:201-213 | Returns the engine's answer when a player is installed, else 0. The registry is unchanged. |
| Jni.IjkMediaPlayer.GetDuration | ijkmediaplayer/jni/ijkplayer/android/ijkplayer_jni.c:215-227 | Returns the engine's answer when a player is installed, else 0. The registry is unchanged. |
| Jni.IjkMediaPlayer.Reset | ijkmediaplayer/jni/ijkplayer/android/ijkplayer_jni.c:243-253 | The registry is unchanged. The engine is called on the installed player iff there is one. |
| Jni.IjkMediaPlayer.Release | ijkmediaplayer/jni/ijkplayer/android/ijkplayer_jni.c:229-241 | The new state is `Registry.Release` of the old one. The invariant holds and the slot is empty. |
| Jni.IjkMediaPlayer.NativeSetup | ijkmediaplayer/jni/ijkplayer/android/ijkplayer_jni.c:272-282 | The new state is `Registry.Setup` of the old one. OutOfMemory is raised iff `ijkmp_create` fails; otherwise a player is installed. The invariant holds. |
| Jni.IjkMediaPlayer.NativeFinalize | ijkmediaplayer/jni/ijkplayer/android/ijkplayer_jni.c:284-289 | Exactly the release transition. |
| Jni.IjkMediaPlayer.Drain | ijkmediaplayer/jni/ijkplayer/android/ijkplayer_jni.c:302-347 | The loop appends to the posted events exactly `Posted(Consumed(script))`: the translations of the messages dequeued before the first negative result, in order. |
| Jni.IjkMediaPlayer.NativeMessageLoop | ijkmediaplayer/jni/ijkplayer/android/ijkplayer_jni.c:296-351 | With an empty slot nothing is posted. Otherwise the posted events are as for Drain. Either way the borrow is dropped exactly once and the registry is unchanged. |
| Jni.PlayInstalled | ijkmediaplayer/jni/ijkplayer/android/ijkplayer_jni.c:88-199 | On an installed player whose engine accepts every call, setDataSource raises nothing, isPlaying reports true, and the registry is unchanged. |
| Jni.UseReleased | ijkmediaplayer/jni/ijkplayer/android/ijkplayer_jni.c:187-289 | After release: isPlaying is false, getDuration is 0, start raises IllegalState, no engine call is made, and finalize changes nothing. |
| Jni.SessionAfterRelease | ijkmediaplayer/jni/ijkplayer/android/ijkplayer_jni.c:229-241 | A whole session goes setup, source, prepare, start, playing, release. Afterwards isPlaying is false, getDuration is 0 and start raises IllegalState. |

## Left out

- Concurrency: the mutex and threads are not modelled. Each locked section is one atomic step, and interleavings appear only as sequential orders of those steps (`Registry.BorrowOutlivesRelease`).
- Blocking: `ijkmp_dec_ref` may block (line 80); that is not modelled.
- JNI plumbing:
  - `GetLongField`/`SetLongField` become the `slot` field.
  - `GetStringUTFChars` becomes the `pathChars` flag. `ReleaseStringUTFChars` is not modelled.
  - The `keys`/`values` arrays of setDataSourceAndHeaders are not modelled; the source ignores them too.
  - The Surface object becomes an integer.
  - `weak_this` and failures of `CallStaticVoidMethod` are not modelled.
- Module load and unload: `IjkMediaPlayer_native_init`, `JNI_OnLoad`, `JNI_OnUnload` and the `g_methods` registration table are process-wide setup through foreign calls and are not part of this model. Also not modelled: `native_init` calls `RegisterNatives` with `g_clazz.clazz` before `FindClass` assigns it (lines 260 and 262).
- Engine internals: `ijkmp_*` behaviour is not part of this model. Engine answers are parameters, and three properties are assumed:
  - `ijkmp_create` returns a player holding one reference for the caller;
  - `ijkmp_dec_ref` on NULL is a no-op;
  - `ijkmp_dec_ref` tears a player down exactly when its count reaches 0.
- Header constants: the headers that define these constants are not part of this model, so their values are assumed. They are `EIJK_INVALID_STATE`, `EIJK_OUT_OF_MEMORY`, the `FFP_MSG_*` codes and the `MEDIA_*` codes.
- `JNI_CHECK_GOTO`: its header is not part of this model. A NULL exception class is assumed to mean "log and jump" without raising.
- Logging: `ALOGV`/`ALOGE` are not modelled.
- `assert(retval > 0)` (line 310) is not modelled; a return value of 0 is treated as a message.
- JNI types: `seekTo`, `getCurrentPosition` and `getDuration` are registered with `long` signatures (lines 365, 368 and 369), but the C functions use `int`. The model uses unbounded integers and does not model that ABI mismatch or any truncation.
- Jni.IjkMediaPlayer.NativeMessageLoop: the `ijkmp_get_msg` calls are not logged in `calls`. A finite script of dequeue results stands in for the blocking wait, so a script that never returns a negative value ends the loop when it runs out.
- Jni.IjkMediaPlayer.Release: the pending exception and the engine-call log are unchanged only through the `modifies` frame, not by an `ensures` clause.

## Findings

| source | as written | input that shows it | evidently intended | confidence | as-written member | corrected member |
|---|---|---|---|---|---|---|
| ijkmediaplayer/jni/ijkplayer/android/ijkplayer_jni.c:39 | The third guard of `IJK_CHECK_MPRET_GOTO` is `JNI_CHECK_GOTO((retval < 0), …)`. `JNI_CHECK_GOTO` throws when its condition is false, so it throws IjkMediaException on every non-negative status and lets other negative statuses pass silently. | A successful `ijkmp_set_data_source` or `ijkmp_prepare_async` returning 0 raises IjkMediaException (`Status.AsWrittenRaisesOnSuccess`); a status of -1 raises nothing. | Raise IjkMediaException on any negative status other than the two named codes; a non-negative status is success (condition `retval >= 0`). | not executed | Status.CheckMpRetAsWritten | Status.CheckMpRet |
