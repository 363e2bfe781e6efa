/**
 * The native side of tv.danmaku.ijk.media.player.IjkMediaPlayer
 * (ijkplayer_jni.c): the jlong field mNativeMediaPlayer, the engine's
 * per-player reference counts, and every JNI entry point as a method.
 * Each mutex-guarded section is one atomic step; the engine's operations
 * are external calls whose results are parameters.
 */
module Jni {
  import opened Optional
  import opened Status
  import opened Messages
  import opened Pump
  import CallGuard
  import Registry

  type Handle = Registry.Handle

  /** One engine operation the wrappers delegated, and the player it ran on. */
  datatype EngineCall = EngineCall(mp: Handle, req: CallGuard.Request)

  class IjkMediaPlayer {
    var slot: Handle                 // mNativeMediaPlayer
    var refs: map<Handle, nat>       // the engine's ref_count of every player it created
    var destroyed: set<Handle>       // players torn down by their last ijkmp_dec_ref
    var shut: set<Handle>            // players ijkmp_shutdown was called on
    var next: Handle                 // the pointer the next ijkmp_create returns
    ghost var holders: multiset<Handle>  // references held outside the slot
    var calls: seq<EngineCall>       // engine operations delegated by the wrappers, in order
    var posted: seq<Event>           // events handed to postEventFromNative, in order

    ghost function State(): Registry.State
      reads this`slot, this`refs, this`destroyed, this`shut, this`next, this`holders
    {
      Registry.State(slot, refs, destroyed, shut, next, holders)
    }

    ghost predicate Valid()
      reads this`slot, this`refs, this`destroyed, this`shut, this`next, this`holders
    {
      Registry.Valid(State())
    }

    /** A Java object whose slot is still empty, before native_setup. */
    constructor ()
      ensures Valid()
      ensures slot == Registry.NULL && refs == map[] && destroyed == {} && holders == multiset{}
      ensures calls == [] && posted == []
    {
      slot, refs, destroyed, shut, next := Registry.NULL, map[], {}, {}, 1;
      holders := multiset{};
      calls, posted := [], [];
    }

    // -------------------------------------------------------------------
    // Engine steps

    /** ijkmp_inc_ref, only ever applied to a live player. */
    method IncRef(mp: Handle)
      requires mp in refs && mp !in destroyed
      modifies this`refs
      ensures refs == old(refs)[mp := old(refs)[mp] + 1]
    {
      refs := refs[mp := refs[mp] + 1];
    }

    /** ijkmp_dec_ref(&mp) by a holder giving its reference up; teardown at zero; NULL is a no-op. */
    method DecRef(mp: Handle)
      requires Valid()
      requires mp != Registry.NULL ==> mp in holders
      modifies this`refs, this`destroyed, this`holders
      ensures Valid()
      ensures mp != Registry.NULL ==> mp in old(refs) && old(refs)[mp] > 0
      ensures State() == Registry.DecRef(old(State()), mp)
    {
      Registry.DecRefValid(State(), mp);
      if mp != Registry.NULL {
        var n := refs[mp] - 1;
        refs := refs[mp := n];
        if n == 0 {
          destroyed := destroyed + {mp};
        }
        holders := holders - multiset{mp};
      }
    }

    /** The epilogue every wrapper shares: drop the reference jni_get_media_player handed out. */
    method Drop(mp: Handle, ghost s0: Registry.State)
      requires Registry.Valid(s0)
      requires (State(), mp) == Registry.Acquire(s0)
      modifies this`refs, this`destroyed, this`holders
      ensures State() == s0
    {
      Registry.AcquireThenDrop(s0);
      DecRef(mp);
    }

    /** ijkmp_create: NULL when allocation fails, otherwise a fresh player with one reference for the caller. */
    method Create(allocOk: bool) returns (mp: Handle)
      requires Valid()
      modifies this`refs, this`holders, this`next
      ensures Valid()
      ensures (State(), mp) == Registry.Create(old(State()), allocOk)
      ensures mp != Registry.NULL <==> allocOk
      ensures mp != Registry.NULL ==> mp in holders
    {
      if !allocOk {
        return Registry.NULL;
      }
      Registry.CreateValid(State());
      mp := next;
      refs := refs[mp := 1];
      holders := holders + multiset{mp};
      next := next + 1;
      assert State() == Registry.Create(old(State()), true).0;
    }

    /** ijkmp_shutdown. */
    method Shutdown(mp: Handle)
      requires Valid()
      requires mp in refs && mp !in destroyed
      modifies this`shut
      ensures Valid()
      ensures State() == Registry.Shutdown(old(State()), mp)
    {
      Registry.ShutdownValid(State(), mp);
      shut := shut + {mp};
    }

    /** A delegated engine operation on a live player; `reply` is what it returns. */
    method Delegate(mp: Handle, req: CallGuard.Request, reply: int) returns (retval: int)
      requires mp in refs && mp !in destroyed
      modifies this`calls
      ensures calls == old(calls) + [EngineCall(mp, req)]
      ensures retval == reply
    {
      calls := calls + [EngineCall(mp, req)];
      retval := reply;
    }

    /** ijkmp_get_msg(mp, &msg, 1) on a live player; `result` is what it dequeues. */
    method GetMsg(mp: Handle, result: Dequeue) returns (d: Dequeue)
      requires mp in refs && mp !in destroyed
      ensures d == result
    {
      d := result;
    }

    /** post_event: hand one event to postEventFromNative. */
    method PostEvent(e: Event)
      modifies this`posted
      ensures posted == old(posted) + [e]
    {
      posted := posted + [e];
    }

    // -------------------------------------------------------------------
    // The registry

    /** jni_get_media_player (lines 55-66). */
    method GetMediaPlayer() returns (mp: Handle)
      requires Valid()
      modifies this`refs, this`holders
      ensures Valid()
      ensures (State(), mp) == Registry.Acquire(old(State()))
      ensures mp == old(slot) && (mp != Registry.NULL ==> mp in refs && mp !in destroyed)
    {
      ghost var s0 := State();
      // pthread_mutex_lock
      mp := slot;
      if mp != Registry.NULL {
        Registry.HeldIsAlive(s0, mp);
        IncRef(mp);
        holders := holders + multiset{mp};
      }
      // pthread_mutex_unlock
      assert State() == Registry.Acquire(s0).0;
      Registry.AcquireBorrows(s0);
    }

    /** jni_set_media_player (lines 68-86). */
    method SetMediaPlayer(mp: Handle) returns (prev: Handle)
      requires Valid()
      requires mp != Registry.NULL ==> mp in holders
      modifies this`slot, this`refs, this`holders, this`destroyed
      ensures Valid()
      ensures mp != Registry.NULL ==> mp in old(refs)
      ensures (State(), prev) == Registry.Install(old(State()), mp)
      ensures holders == old(holders)
    {
      ghost var s0 := State();
      if mp != Registry.NULL {
        Registry.HeldIsAlive(s0, mp);
      }
      // pthread_mutex_lock
      prev := slot;
      if mp != Registry.NULL {
        IncRef(mp);
      }
      slot := mp;
      if prev != Registry.NULL {
        holders := holders + multiset{prev};
      }
      // pthread_mutex_unlock
      assert State() == Registry.Swap(s0, mp);
      Registry.SwapValid(s0, mp);
      if prev != Registry.NULL {
        DecRef(prev);
      }
      assert holders == s0.holders;
    }

    // -------------------------------------------------------------------
    // The wrappers: borrow, check, delegate, drop

    /** IjkMediaPlayer_setDataSourceAndHeaders (lines 88-110); `pathChars` is whether GetStringUTFChars succeeded. */
    method SetDataSource(path: Option<string>, pathChars: bool, reply: int) returns (raised: Raised)
      requires Valid()
      modifies this`refs, this`holders, this`destroyed, this`calls
      ensures Valid() && State() == old(State())
      ensures var req := CallGuard.SetDataSource(path);
        var o := CallGuard.Guard(req, old(slot) != Registry.NULL, pathChars, reply);
        raised == o.raised && calls == old(calls) + (if o.delegated then [EngineCall(old(slot), req)] else [])
    {
      ghost var s0 := State();
      var mp := GetMediaPlayer();
      if path.None? {
        raised := IllegalArgument;
      } else if mp == Registry.NULL {
        raised := IllegalState;
      } else if !pathChars {
        raised := OutOfMemory;
      } else {
        var retval := Delegate(mp, CallGuard.SetDataSource(path), reply);
        raised := CheckMpRet(retval);
      }
      Drop(mp, s0);
    }

    /** IjkMediaPlayer_setVideoSurface (lines 112-123): a missing player is only logged. */
    method SetVideoSurface(surface: int, reply: int)
      requires Valid()
      modifies this`refs, this`holders, this`destroyed, this`calls
      ensures Valid() && State() == old(State())
      ensures var req := CallGuard.SetVideoSurface(surface);
        var o := CallGuard.Guard(req, old(slot) != Registry.NULL, true, reply);
        calls == old(calls) + (if o.delegated then [EngineCall(old(slot), req)] else [])
    {
      ghost var s0 := State();
      var mp := GetMediaPlayer();
      if mp != Registry.NULL {
        var _ := Delegate(mp, CallGuard.SetVideoSurface(surface), reply);
      }
      Drop(mp, s0);
    }

    /** IjkMediaPlayer_prepareAsync (lines 125-137). */
    method PrepareAsync(reply: int) returns (raised: Raised)
      requires Valid()
      modifies this`refs, this`holders, this`destroyed, this`calls
      ensures Valid() && State() == old(State())
      ensures var o := CallGuard.Guard(CallGuard.PrepareAsync, old(slot) != Registry.NULL, true, reply);
        raised == o.raised && calls == old(calls) + (if o.delegated then [EngineCall(old(slot), CallGuard.PrepareAsync)] else [])
    {
      ghost var s0 := State();
      var mp := GetMediaPlayer();
      if mp == Registry.NULL {
        raised := IllegalState;
      } else {
        var retval := Delegate(mp, CallGuard.PrepareAsync, reply);
        raised := CheckMpRet(retval);
      }
      Drop(mp, s0);
    }

    /**
     * The shape shared by start, stop, pause and seekTo (lines 139-185):
     * IllegalStateException on a missing player, the engine's status ignored.
     */
    method Command(req: CallGuard.Request, reply: int) returns (raised: Raised)
      requires Valid()
      requires req.Start? || req.Stop? || req.Pause? || req.SeekTo?
      modifies this`refs, this`holders, this`destroyed, this`calls
      ensures Valid() && State() == old(State())
      ensures var o := CallGuard.Guard(req, old(slot) != Registry.NULL, true, reply);
        raised == o.raised && calls == old(calls) + (if o.delegated then [EngineCall(old(slot), req)] else [])
    {
      ghost var s0 := State();
      var mp := GetMediaPlayer();
      if mp == Registry.NULL {
        raised := IllegalState;
      } else {
        var _ := Delegate(mp, req, reply);
        raised := NoError;
      }
      Drop(mp, s0);
    }

    /** IjkMediaPlayer_start (lines 139-149). */
    method Start(reply: int) returns (raised: Raised)
      requires Valid()
      modifies this`refs, this`holders, this`destroyed, this`calls
      ensures Valid() && State() == old(State())
      ensures var o := CallGuard.Guard(CallGuard.Start, old(slot) != Registry.NULL, true, reply);
        raised == o.raised && calls == old(calls) + (if o.delegated then [EngineCall(old(slot), CallGuard.Start)] else [])
    {
      raised := Command(CallGuard.Start, reply);
    }

    /** IjkMediaPlayer_stop (lines 151-161). */
    method Stop(reply: int) returns (raised: Raised)
      requires Valid()
      modifies this`refs, this`holders, this`destroyed, this`calls
      ensures Valid() && State() == old(State())
      ensures var o := CallGuard.Guard(CallGuard.Stop, old(slot) != Registry.NULL, true, reply);
        raised == o.raised && calls == old(calls) + (if o.delegated then [EngineCall(old(slot), CallGuard.Stop)] else [])
    {
      raised := Command(CallGuard.Stop, reply);
    }

    /** IjkMediaPlayer_pause (lines 163-173). */
    method Pause(reply: int) returns (raised: Raised)
      requires Valid()
      modifies this`refs, this`holders, this`destroyed, this`calls
      ensures Valid() && State() == old(State())
      ensures var o := CallGuard.Guard(CallGuard.Pause, old(slot) != Registry.NULL, true, reply);
        raised == o.raised && calls == old(calls) + (if o.delegated then [EngineCall(old(slot), CallGuard.Pause)] else [])
    {
      raised := Command(CallGuard.Pause, reply);
    }

    /** IjkMediaPlayer_seekTo (lines 175-185). */
    method SeekTo(msec: int, reply: int) returns (raised: Raised)
      requires Valid()
      modifies this`refs, this`holders, this`destroyed, this`calls
      ensures Valid() && State() == old(State())
      ensures var req := CallGuard.SeekTo(msec);
        var o := CallGuard.Guard(req, old(slot) != Registry.NULL, true, reply);
        raised == o.raised && calls == old(calls) + (if o.delegated then [EngineCall(old(slot), req)] else [])
    {
      raised := Command(CallGuard.SeekTo(msec), reply);
    }

    /**
     * The shape shared by isPlaying, getCurrentPosition and getDuration
     * (lines 187-227): a missing player is only logged and 0 is returned.
     */
    method Query(req: CallGuard.Request, reply: int) returns (result: int)
      requires Valid()
      requires CallGuard.IsQuery(req)
      modifies this`refs, this`holders, this`destroyed, this`calls
      ensures Valid() && State() == old(State())
      ensures var o := CallGuard.Guard(req, old(slot) != Registry.NULL, true, reply);
        result == o.result && calls == old(calls) + (if o.delegated then [EngineCall(old(slot), req)] else [])
    {
      ghost var s0 := State();
      result := 0;
      var mp := GetMediaPlayer();
      if mp != Registry.NULL {
        var retval := Delegate(mp, req, reply);
        result := CallGuard.Answer(req, retval);
      }
      Drop(mp, s0);
    }

    /** IjkMediaPlayer_isPlaying (lines 187-199); `reply` is ijkmp_is_playing's answer. */
    method IsPlaying(reply: bool) returns (playing: bool)
      requires Valid()
      modifies this`refs, this`holders, this`destroyed, this`calls
      ensures Valid() && State() == old(State())
      ensures playing <==> old(slot) != Registry.NULL && reply
      ensures calls == old(calls) + (if old(slot) != Registry.NULL then [EngineCall(old(slot), CallGuard.IsPlaying)] else [])
    {
      var result := Query(CallGuard.IsPlaying, if reply then 1 else 0);
      playing := result == CallGuard.JNI_TRUE;
    }

    /** IjkMediaPlayer_getCurrentPosition (lines 201-213). */
    method GetCurrentPosition(reply: int) returns (msec: int)
      requires Valid()
      modifies this`refs, this`holders, this`destroyed, this`calls
      ensures Valid() && State() == old(State())
      ensures msec == if old(slot) != Registry.NULL then reply else 0
      ensures calls == old(calls) + (if old(slot) != Registry.NULL then [EngineCall(old(slot), CallGuard.GetCurrentPosition)] else [])
    {
      msec := Query(CallGuard.GetCurrentPosition, reply);
    }

    /** IjkMediaPlayer_getDuration (lines 215-227). */
    method GetDuration(reply: int) returns (msec: int)
      requires Valid()
      modifies this`refs, this`holders, this`destroyed, this`calls
      ensures Valid() && State() == old(State())
      ensures msec == if old(slot) != Registry.NULL then reply else 0
      ensures calls == old(calls) + (if old(slot) != Registry.NULL then [EngineCall(old(slot), CallGuard.GetDuration)] else [])
    {
      msec := Query(CallGuard.GetDuration, reply);
    }

    /** IjkMediaPlayer_reset (lines 243-253): a missing player is only logged. */
    method Reset(reply: int)
      requires Valid()
      modifies this`refs, this`holders, this`destroyed, this`calls
      ensures Valid() && State() == old(State())
      ensures calls == old(calls) + (if old(slot) != Registry.NULL then [EngineCall(old(slot), CallGuard.Reset)] else [])
    {
      ghost var s0 := State();
      var mp := GetMediaPlayer();
      if mp != Registry.NULL {
        var _ := Delegate(mp, CallGuard.Reset, reply);
      }
      Drop(mp, s0);
    }

    // -------------------------------------------------------------------
    // Lifecycle

    /** IjkMediaPlayer_release (lines 229-241). */
    method Release()
      requires Valid()
      modifies this`slot, this`refs, this`holders, this`destroyed, this`shut
      ensures Valid() && State() == Registry.Release(old(State()))
      ensures slot == Registry.NULL
    {
      ghost var s0 := State();
      var mp := GetMediaPlayer();
      if mp == Registry.NULL {
        Registry.ReleaseEmptyIsNoop(s0);
        return;
      }
      // explicit shutdown, in case this is not the last reference
      Shutdown(mp);
      var _ := SetMediaPlayer(Registry.NULL);
      DecRef(mp);
    }

    /** IjkMediaPlayer_native_setup (lines 272-282); `allocOk` is whether ijkmp_create succeeded. */
    method NativeSetup(allocOk: bool) returns (raised: Raised)
      requires Valid()
      modifies this`slot, this`refs, this`holders, this`destroyed, this`next
      ensures Valid() && State() == Registry.Setup(old(State()), allocOk)
      ensures raised == if allocOk then NoError else OutOfMemory
      ensures allocOk ==> slot != Registry.NULL
    {
      ghost var s0 := State();
      var mp := Create(allocOk);
      if mp == Registry.NULL {
        raised := OutOfMemory;
      } else {
        var _ := SetMediaPlayer(mp);
        raised := NoError;
      }
      DecRef(mp);
    }

    /** IjkMediaPlayer_native_finalize (lines 284-289): the same as release. */
    method NativeFinalize()
      requires Valid()
      modifies this`slot, this`refs, this`holders, this`destroyed, this`shut
      ensures Valid() && State() == Registry.Release(old(State()))
      ensures slot == Registry.NULL
    {
      Release();
    }

    // -------------------------------------------------------------------
    // The event pump

    /**
     * The loop of IjkMediaPlayer_native_message_loop (lines 303-346) on a
     * live player. `script` lists what the successive ijkmp_get_msg calls
     * return; the loop stops at the first negative return value (or when the
     * script runs out). Every dequeued message is translated, known kinds are
     * posted and unknown ones only logged.
     */
    method Drain(mp: Handle, script: seq<Dequeue>)
      requires mp in refs && mp !in destroyed
      modifies this`posted
      ensures posted == old(posted) + Posted(Consumed(script))
    {
      var i := 0;
      while i < |script|
        invariant 0 <= i <= |script|
        invariant forall k :: 0 <= k < i ==> script[k].ret >= 0
        invariant posted == old(posted) + Posted(script[..i])
      {
        var d := GetMsg(mp, script[i]);
        if d.ret < 0 {
          break;
        }
        var e := Translate(d.msg);
        if e.Some? {
          PostEvent(e.value);
        }
        assert Posted([d]) == Emit(d.msg) + Posted([]);
        assert script[..i + 1] == script[..i] + [d];
        PostedAppend(script[..i], [d]);
        i := i + 1;
      }
      ConsumedUpTo(script, i);
    }

    /** IjkMediaPlayer_native_message_loop (lines 296-351): a missing player is only logged. */
    method NativeMessageLoop(script: seq<Dequeue>)
      requires Valid()
      modifies this`refs, this`holders, this`destroyed, this`posted
      ensures Valid() && State() == old(State())
      ensures posted == old(posted) + (if old(slot) == Registry.NULL then [] else Posted(Consumed(script)))
    {
      ghost var s0 := State();
      var mp := GetMediaPlayer();
      if mp != Registry.NULL {
        Drain(mp, script);
      }
      Drop(mp, s0);
    }
  }

  /** Source, prepare, start and a query on an installed player whose engine accepts every call. */
  method PlayInstalled(p: IjkMediaPlayer) returns (source: Raised, playing: bool)
    requires p.Valid() && p.slot != Registry.NULL
    modifies p`refs, p`holders, p`destroyed, p`calls
    ensures p.Valid() && p.State() == old(p.State())
    ensures source == NoError && playing
  {
    source := p.SetDataSource(Some("a.mp4"), true, 0);
    var _ := p.PrepareAsync(0);
    var _ := p.Start(0);
    playing := p.IsPlaying(true);
  }

  /** The same object once its slot is empty: queries fall back to defaults, start raises, finalize is harmless. */
  method UseReleased(p: IjkMediaPlayer, duration: int) returns (playing: bool, msec: int, start: Raised)
    requires p.Valid() && p.slot == Registry.NULL
    modifies p`slot, p`refs, p`holders, p`destroyed, p`shut, p`calls
    ensures p.Valid() && p.State() == old(p.State())
    ensures p.calls == old(p.calls)
    ensures !playing && msec == 0 && start == IllegalState
  {
    playing := p.IsPlaying(true);
    msec := p.GetDuration(duration);
    start := p.Start(0);
    p.NativeFinalize();
    Registry.ReleaseEmptyIsNoop(old(p.State()));
  }

  /**
   * A whole session on one Java object: setup, play, release, then the
   * same object used again. After release the queries fall back to false
   * and 0, start raises IllegalStateException, and finalize changes nothing.
   */
  method SessionAfterRelease(duration: int) returns (setup: Raised, source: Raised, playing: bool,
                                                     playingAfter: bool, durationAfter: int, startAfter: Raised)
    ensures setup == NoError && source == NoError && playing
    ensures !playingAfter && durationAfter == 0 && startAfter == IllegalState
  {
    var p := new IjkMediaPlayer();
    setup := p.NativeSetup(true);
    source, playing := PlayInstalled(p);
    p.Release();
    playingAfter, durationAfter, startAfter := UseReleased(p, duration);
  }
}
