/**
 * What each IjkMediaPlayer_* wrapper of ijkplayer_jni.c decides (lines
 * 88-227 and 243-253): which exception it leaves pending, whether it calls
 * the engine, and what it returns to Java.  How the wrappers borrow and
 * drop the player is in module Jni.
 */
module CallGuard {
  import opened Optional
  import opened Status

  /** One call from Java into a wrapper, with the arguments the wrapper passes on. */
  datatype Request =
    | SetDataSource(path: Option<string>)  // None: the Java string is null
    | SetVideoSurface(surface: int)
    | PrepareAsync
    | Start
    | Stop
    | Pause
    | SeekTo(msec: int)
    | IsPlaying
    | GetCurrentPosition
    | GetDuration
    | Reset

  /** Wrappers whose null-player check names IllegalStateException; the others pass NULL and only log. */
  predicate RaisesOnNullMp(req: Request)
  {
    req.SetDataSource? || req.PrepareAsync? || req.Start? || req.Stop? || req.Pause? || req.SeekTo?
  }

  /** Wrappers that run the engine's status through IJK_CHECK_MPRET_GOTO. */
  predicate MapsStatus(req: Request)
  {
    req.SetDataSource? || req.PrepareAsync?
  }

  /** Wrappers that hand a value back to Java. */
  predicate IsQuery(req: Request)
  {
    req.IsPlaying? || req.GetCurrentPosition? || req.GetDuration?
  }

  /**
   * The result of one wrapper call: the pending exception, whether the
   * engine operation was called, and the value returned to Java (JNI_TRUE
   * = 1 and JNI_FALSE = 0 for isPlaying; 0 for the void wrappers).
   */
  datatype Outcome = Outcome(raised: Raised, delegated: bool, result: int)

  const JNI_FALSE: int := 0
  const JNI_TRUE: int := 1

  /** What the wrapper returns once the engine answered `reply`. */
  function Answer(req: Request, reply: int): (r: int)
    ensures req.IsPlaying? ==> (r == JNI_TRUE <==> reply != 0) && (r == JNI_FALSE <==> reply == 0)
    ensures (req.GetCurrentPosition? || req.GetDuration?) ==> r == reply
    ensures !IsQuery(req) ==> r == 0
  {
    if req.IsPlaying? then (if reply != 0 then JNI_TRUE else JNI_FALSE)
    else if req.GetCurrentPosition? || req.GetDuration? then reply
    else 0
  }

  /**
   * One wrapper call. `installed` says whether the slot held a player when
   * the wrapper borrowed it; `pathChars` whether GetStringUTFChars
   * succeeded (setDataSource only); `reply` is what the engine operation
   * returns when it is called.
   */
  function Guard(req: Request, installed: bool, pathChars: bool, reply: int): (o: Outcome)
    ensures o.delegated ==> installed
    ensures !o.delegated ==> o.result == 0
    ensures o.raised == IjkMediaException ==> o.delegated && MapsStatus(req) && reply < 0
    ensures o.raised == IllegalArgument ==> !o.delegated
  {
    if req.SetDataSource? && req.path.None? then Outcome(IllegalArgument, false, 0)
    else if !installed then Outcome(if RaisesOnNullMp(req) then IllegalState else NoError, false, 0)
    else if req.SetDataSource? && !pathChars then Outcome(OutOfMemory, false, 0)
    else Outcome(if MapsStatus(req) then CheckMpRet(reply) else NoError, true, Answer(req, reply))
  }

  /**
   * With no player installed no wrapper calls the engine: the state-changing
   * ones raise IllegalStateException (setDataSource first checks its path),
   * setVideoSurface and reset only log, and the queries return false or 0
   * without raising.
   */
  lemma EmptySlotDefaults(req: Request, pathChars: bool, reply: int)
    ensures var o := Guard(req, false, pathChars, reply);
      && !o.delegated
      && o.result == 0
      && (req.SetDataSource? && req.path.None? ==> o.raised == IllegalArgument)
      && (RaisesOnNullMp(req) && !(req.SetDataSource? && req.path.None?) ==> o.raised == IllegalState)
      && (IsQuery(req) ==> o.raised == NoError)
      && (req.SetVideoSurface? || req.Reset? ==> o.raised == NoError)
  {
  }

  /** A null path is reported before anything else, whether a player is installed or not. */
  lemma NullPathFirst(installed: bool, pathChars: bool, reply: int)
    ensures Guard(SetDataSource(None), installed, pathChars, reply) == Outcome(IllegalArgument, false, 0)
  {
  }

  /** start, stop, pause, seekTo, setVideoSurface and reset ignore what the engine returns. */
  lemma StatusIgnored(req: Request, pathChars: bool, reply1: int, reply2: int)
    requires !MapsStatus(req) && !IsQuery(req)
    ensures Guard(req, true, pathChars, reply1) == Guard(req, true, pathChars, reply2)
    ensures Guard(req, true, pathChars, reply1) == Outcome(NoError, true, 0)
  {
  }

  /** setDataSource and prepareAsync raise exactly what the status classification says, after the call. */
  lemma StatusMapped(req: Request, reply: int)
    requires req.PrepareAsync? || (req.SetDataSource? && req.path.Some?)
    ensures Guard(req, true, true, reply) == Outcome(CheckMpRet(reply), true, 0)
  {
  }

  /** The queries pass the engine's answer through, never raising, once a player is installed. */
  lemma QueriesPassThrough(reply: int)
    ensures Guard(IsPlaying, true, true, reply) == Outcome(NoError, true, if reply != 0 then JNI_TRUE else JNI_FALSE)
    ensures Guard(GetCurrentPosition, true, true, reply) == Outcome(NoError, true, reply)
    ensures Guard(GetDuration, true, true, reply) == Outcome(NoError, true, reply)
  {
  }
}
