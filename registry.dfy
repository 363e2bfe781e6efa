/**
 * The handle registry of ijkplayer_jni.c as a pure state machine: the
 * mNativeMediaPlayer slot of the Java object, the reference count the
 * engine keeps in every IjkMediaPlayer it created, and which of them have
 * been torn down.  Each function is one mutex-guarded section (or one
 * engine step) taken as atomic.
 */
module Registry {

  /** An IjkMediaPlayer pointer as stored in the jlong slot; 0 is NULL. */
  type Handle = nat
  const NULL: Handle := 0

  datatype State = State(
    slot: Handle,               // the mNativeMediaPlayer field
    refs: map<Handle, nat>,     // ref_count of every player ijkmp_create returned
    destroyed: set<Handle>,     // players whose count reached 0 and were torn down
    shut: set<Handle>,          // players ijkmp_shutdown was called on
    next: Handle,               // the pointer the next ijkmp_create returns
    holders: multiset<Handle>)  // references held outside the slot: borrows and the creator's

  /** The one reference the slot itself holds. */
  function SlotRef(s: State, h: Handle): nat
  {
    if h != NULL && s.slot == h then 1 else 0
  }

  /**
   * The bookkeeping of one player: it is known to the engine if anybody
   * holds it or it was shut down or torn down; its count equals the number
   * of its holders (the slot plus every borrower); it is torn down exactly
   * when its count is 0.
   */
  ghost predicate Accounted(s: State, h: Handle)
  {
    && (h in s.holders ==> h in s.refs)
    && (h in s.destroyed ==> h in s.refs)
    && (h in s.shut ==> h in s.refs)
    && (h in s.refs ==>
          && h < s.next
          && s.refs[h] == SlotRef(s, h) + s.holders[h]
          && (h in s.destroyed <==> s.refs[h] == 0))
  }

  /**
   * The registry invariant: every player is accounted for, NULL and the
   * next pointer ijkmp_create returns are not players yet, and the slot
   * never names an unknown player.
   */
  ghost predicate Valid(s: State)
  {
    && NULL < s.next
    && NULL !in s.refs
    && s.next !in s.refs
    && SlotCounted(s)
    && (forall h :: Accounted(s, h))
  }

  /** A player that exists and has not been torn down. */
  ghost predicate Alive(s: State, h: Handle)
  {
    h in s.refs && h !in s.destroyed
  }

  /** The slot names a player whose count is positive (what the engine calls below need). */
  predicate SlotCounted(s: State)
  {
    s.slot != NULL ==> s.slot in s.refs && s.refs[s.slot] > 0
  }

  /** ijkmp_inc_ref. */
  function IncRef(s: State, h: Handle): State
    requires h in s.refs
  {
    s.(refs := s.refs[h := s.refs[h] + 1])
  }

  /**
   * ijkmp_dec_ref(&mp), with the holder of `h` giving its reference up;
   * the player is torn down when its count reaches 0, and NULL is a no-op.
   */
  function DecRef(s: State, h: Handle): State
    requires h != NULL ==> h in s.refs && s.refs[h] > 0
  {
    if h == NULL then s
    else
      var n := s.refs[h] - 1;
      s.(refs := s.refs[h := n],
         destroyed := if n == 0 then s.destroyed + {h} else s.destroyed,
         holders := s.holders - multiset{h})
  }

  /** ijkmp_create: a fresh player whose one reference belongs to the caller; `allocOk` is false when allocation fails. */
  function Create(s: State, allocOk: bool): (State, Handle)
  {
    if !allocOk then (s, NULL)
    else (s.(refs := s.refs[s.next := 1], holders := s.holders + multiset{s.next}, next := s.next + 1), s.next)
  }

  /** jni_get_media_player: read the slot and, when it holds a player, take a reference to it for the caller. */
  function Acquire(s: State): (State, Handle)
    requires s.slot != NULL ==> s.slot in s.refs
  {
    if s.slot == NULL then (s, NULL)
    else (IncRef(s, s.slot).(holders := s.holders + multiset{s.slot}), s.slot)
  }

  /**
   * The locked section of jni_set_media_player: count the slot's new
   * reference to `mp` and overwrite the slot.  The slot's reference to the
   * previous occupant passes to the caller, which drops it after unlocking.
   */
  function Swap(s: State, mp: Handle): State
    requires mp != NULL ==> mp in s.refs
  {
    var s1 := if mp != NULL then IncRef(s, mp) else s;
    s1.(slot := mp, holders := if s.slot != NULL then s1.holders + multiset{s.slot} else s1.holders)
  }

  /**
   * jni_set_media_player: swap under the lock, then drop the previous
   * occupant's reference outside it; the previous occupant is returned.
   */
  function Install(s: State, mp: Handle): (State, Handle)
    requires SlotCounted(s)
    requires mp != NULL ==> mp in s.refs
  {
    (DecRef(Swap(s, mp), s.slot), s.slot)
  }

  /** ijkmp_shutdown. */
  function Shutdown(s: State, h: Handle): State
  {
    s.(shut := s.shut + {h})
  }

  /** IjkMediaPlayer_native_setup: create, install, then drop the creator's reference. */
  function Setup(s: State, allocOk: bool): State
    requires Valid(s)
  {
    var (s1, mp) := Create(s, allocOk);
    if mp == NULL then s1
    else
      var (s2, _) := Install(s1, mp);
      DecRef(s2, mp)
  }

  /**
   * IjkMediaPlayer_release (and native_finalize, which only calls it):
   * borrow the player, shut it down, empty the slot, drop the borrow.
   */
  function Release(s: State): State
    requires SlotCounted(s)
  {
    var (s1, mp) := Acquire(s);
    if mp == NULL then s1
    else
      var (s2, _) := Install(Shutdown(s1, mp), NULL);
      DecRef(s2, mp)
  }

  // ---------------------------------------------------------------------
  // Properties

  /** A player somebody holds a reference to is alive. */
  lemma HeldIsAlive(s: State, h: Handle)
    requires Valid(s)
    requires h in s.holders || (h != NULL && h == s.slot)
    ensures Alive(s, h) && s.refs[h] >= 1
  {
    assert Accounted(s, h);
  }

  /** Marking a known player as shut down keeps the invariant. */
  lemma ShutdownValid(s: State, h: Handle)
    requires Valid(s) && h in s.refs
    ensures Valid(Shutdown(s, h))
  {
    var r := Shutdown(s, h);
    forall g
      ensures Accounted(r, g)
    {
      assert Accounted(s, g);
    }
  }

  /**
   * Dropping a held reference keeps the invariant; the player is torn down
   * exactly when that was its last reference, and never twice.
   */
  lemma DecRefValid(s: State, h: Handle)
    requires Valid(s)
    requires h != NULL ==> h in s.holders
    ensures h != NULL ==> h in s.refs && s.refs[h] > 0
    ensures Valid(DecRef(s, h))
    ensures h != NULL ==> h !in s.destroyed
    ensures DecRef(s, h).destroyed == s.destroyed + (if h != NULL && s.refs[h] == 1 then {h} else {})
    ensures DecRef(s, h).refs.Keys == s.refs.Keys
    ensures forall g :: g in s.refs ==> DecRef(s, h).refs[g] == s.refs[g] - (if g == h then 1 else 0)
    ensures DecRef(s, h).holders == s.holders - (if h != NULL then multiset{h} else multiset{})
    ensures DecRef(s, h).slot == s.slot && DecRef(s, h).shut == s.shut && DecRef(s, h).next == s.next
  {
    if h != NULL {
      HeldIsAlive(s, h);
      var r := DecRef(s, h);
      forall g
        ensures Accounted(r, g)
      {
        assert Accounted(s, g);
        assert SlotRef(r, g) == SlotRef(s, g);
        if g != h {
          assert r.holders[g] == s.holders[g];
        }
      }
      assert Accounted(r, r.slot);
    }
  }

  /**
   * jni_get_media_player: from an empty slot it returns NULL and changes
   * nothing; otherwise it returns the stored player with its count raised by
   * exactly one, the new reference belonging to the caller.
   */
  lemma AcquireBorrows(s: State)
    requires Valid(s)
    ensures var (r, mp) := Acquire(s);
      && Valid(r)
      && mp == s.slot
      && (mp == NULL ==> r == s)
      && (mp != NULL ==>
            && r.refs == s.refs[mp := s.refs[mp] + 1]
            && r.holders == s.holders + multiset{mp}
            && r.slot == s.slot && r.destroyed == s.destroyed && r.shut == s.shut && r.next == s.next
            && Alive(r, mp))
  {
    var (r, mp) := Acquire(s);
    if mp != NULL {
      HeldIsAlive(s, mp);
      forall g
        ensures Accounted(r, g)
      {
        assert Accounted(s, g);
        if g != mp {
          assert r.holders[g] == s.holders[g];
        }
      }
    }
  }

  /** Every wrapper's borrow-then-drop leaves the registry exactly as it was. */
  lemma AcquireThenDrop(s: State)
    requires Valid(s)
    ensures var (r, mp) := Acquire(s);
      && Valid(r)
      && (mp != NULL ==> mp in r.holders && mp in r.refs && r.refs[mp] > 0)
      && DecRef(r, mp) == s
  {
    AcquireBorrows(s);
    var (r, mp) := Acquire(s);
    if mp != NULL {
      HeldIsAlive(s, mp);
      var d := DecRef(r, mp);
      assert d.holders == s.holders;
      assert d.refs == s.refs;
    }
  }

  /** The locked section keeps the invariant, with the previous occupant now held by the caller. */
  lemma SwapValid(s: State, mp: Handle)
    requires Valid(s)
    requires mp != NULL ==> mp in s.holders
    ensures mp != NULL ==> mp in s.refs
    ensures Valid(Swap(s, mp))
    ensures s.slot != NULL ==> s.slot in Swap(s, mp).holders
    ensures Swap(s, mp).refs.Keys == s.refs.Keys
    ensures forall g :: g in s.refs ==> Swap(s, mp).refs[g] == s.refs[g] + (if g == mp then 1 else 0)
    ensures Swap(s, mp).holders == s.holders + (if s.slot != NULL then multiset{s.slot} else multiset{})
    ensures Swap(s, mp).destroyed == s.destroyed && Swap(s, mp).slot == mp
    ensures Swap(s, mp).shut == s.shut && Swap(s, mp).next == s.next
  {
    if mp != NULL {
      HeldIsAlive(s, mp);
    }
    var s2 := Swap(s, mp);
    forall g
      ensures Accounted(s2, g)
    {
      assert Accounted(s, g);
      if g != mp && g != s.slot {
        assert s2.holders[g] == s.holders[g];
        assert SlotRef(s2, g) == SlotRef(s, g);
      }
    }
  }

  /**
   * jni_set_media_player: the slot holds `mp` afterwards; `mp` gains one
   * count, the previous occupant loses one and is torn down if that was its
   * last reference, no other player is touched, and the previous occupant
   * is returned.
   */
  lemma InstallEffects(s: State, mp: Handle)
    requires Valid(s)
    requires mp != NULL ==> mp in s.holders
    ensures SlotCounted(s) && (mp != NULL ==> mp in s.refs)
    ensures var (r, prev) := Install(s, mp);
      && Valid(r)
      && prev == s.slot
      && r.slot == mp
      && r.refs.Keys == s.refs.Keys
      && (forall g :: g in s.refs ==>
            r.refs[g] == s.refs[g] + (if g == mp then 1 else 0) - (if g == prev then 1 else 0))
      && r.holders == s.holders
      && r.shut == s.shut && r.next == s.next
      && r.destroyed == s.destroyed + (if mp != prev && prev != NULL && s.refs[prev] == 1 then {prev} else {})
  {
    if s.slot != NULL {
      HeldIsAlive(s, s.slot);
    }
    SwapValid(s, mp);
    var s2 := Swap(s, mp);
    DecRefValid(s2, s.slot);
    var r := DecRef(s2, s.slot);
    assert r.holders == s.holders;
    if mp != s.slot && s.slot != NULL {
      assert s2.refs[s.slot] == s.refs[s.slot];
    }
  }

  /** Reinstalling the player the slot already holds changes nothing at all. */
  lemma ReinstallIsIdentity(s: State)
    requires Valid(s)
    requires s.slot != NULL
    ensures Install(s, s.slot) == (s, s.slot)
  {
    var h := s.slot;
    var s2 := Swap(s, h);
    assert s2.refs == s.refs[h := s.refs[h] + 1];
    assert s2.holders - multiset{h} == s.holders;
    assert s.refs[h := s2.refs[h] - 1] == s.refs;
    var r := DecRef(s2, h);
    assert r.refs == s.refs && r.holders == s.holders && r.destroyed == s.destroyed;
    assert r == s;
  }

  /** ijkmp_create hands the caller the only reference to a player nobody knew before. */
  lemma CreateValid(s: State)
    requires Valid(s)
    ensures var (r, mp) := Create(s, true);
      && Valid(r)
      && mp == s.next && mp != NULL && mp !in s.refs
      && r.refs == s.refs[mp := 1]
      && r.refs.Keys == s.refs.Keys + {mp}
      && r.holders == s.holders + multiset{mp}
      && r.slot == s.slot && r.destroyed == s.destroyed && r.shut == s.shut
  {
    var (r, mp) := Create(s, true);
    assert Accounted(s, mp) && Accounted(s, r.next);
    forall g
      ensures Accounted(r, g)
    {
      assert Accounted(s, g);
      if g != mp {
        assert r.holders[g] == s.holders[g];
      }
    }
  }

  /**
   * native_setup: when ijkmp_create fails nothing changes; otherwise the
   * fresh player ends installed with count 1, so the slot holds its only
   * reference, and the previous occupant loses the slot's reference.
   */
  lemma SetupInstallsSoleReference(s: State, allocOk: bool)
    requires Valid(s)
    ensures var r := Setup(s, allocOk);
      && Valid(r)
      && (!allocOk ==> r == s)
      && (allocOk ==>
            && s.next !in s.refs
            && r.slot == s.next
            && r.refs.Keys == s.refs.Keys + {s.next}
            && r.refs[s.next] == 1
            && (forall g :: g in s.refs ==> r.refs[g] == s.refs[g] - (if g == s.slot then 1 else 0))
            && r.holders == s.holders
            && r.destroyed == s.destroyed + (if s.slot != NULL && s.refs[s.slot] == 1 then {s.slot} else {}))
  {
    if allocOk {
      CreateValid(s);
      var (s1, mp) := Create(s, allocOk);
      InstallEffects(s1, mp);
      var s2 := Install(s1, mp).0;
      assert mp in s2.holders;
      DecRefValid(s2, mp);
      var r := DecRef(s2, mp);
      assert r == Setup(s, allocOk);
      assert r.refs.Keys == s.refs.Keys + {s.next};
    }
  }

  /** What release computes on an occupied slot, in closed form. */
  lemma ReleaseClosedForm(s: State)
    requires s.slot != NULL && s.slot in s.refs && s.refs[s.slot] > 0
    ensures Release(s) ==
      var n := s.refs[s.slot] - 1;
      s.(slot := NULL,
         refs := s.refs[s.slot := n],
         destroyed := if n == 0 then s.destroyed + {s.slot} else s.destroyed,
         shut := s.shut + {s.slot})
  {
    var h := s.slot;
    var (s1, mp) := Acquire(s);
    var t := Shutdown(s1, mp);
    var s2 := Install(t, NULL).0;
    assert s2.refs == s.refs && s2.holders == s.holders + multiset{h};
    assert s2.destroyed == s.destroyed;
  }

  /**
   * release on an occupied slot: the player is shut down, the slot is
   * empty, and the player's count falls by exactly one (it is torn down
   * when the slot held its last reference).
   */
  lemma ReleaseRetires(s: State)
    requires Valid(s)
    requires s.slot != NULL
    ensures SlotCounted(s)
    ensures Valid(Release(s))
    ensures Release(s).slot == NULL
    ensures Release(s).shut == s.shut + {s.slot}
    ensures Release(s).refs == s.refs[s.slot := s.refs[s.slot] - 1]
    ensures Release(s).destroyed == s.destroyed + (if s.refs[s.slot] == 1 then {s.slot} else {})
    ensures Release(s).holders == s.holders && Release(s).next == s.next
  {
    HeldIsAlive(s, s.slot);
    ReleaseClosedForm(s);
    var r := Release(s);
    forall g
      ensures Accounted(r, g)
    {
      assert Accounted(s, g);
      if g != s.slot {
        assert SlotRef(r, g) == SlotRef(s, g);
      }
    }
  }

  /** release on an empty slot is a no-op. */
  lemma ReleaseEmptyIsNoop(s: State)
    requires Valid(s)
    requires s.slot == NULL
    ensures Release(s) == s
  {
  }

  /** A second release, or finalize after release, changes nothing: teardown happens at most once. */
  lemma ReleaseIdempotent(s: State)
    requires Valid(s)
    ensures SlotCounted(s) && SlotCounted(Release(s))
    ensures Release(Release(s)) == Release(s)
  {
    if s.slot != NULL {
      ReleaseRetires(s);
    }
  }

  /**
   * No use after destroy across a release: a wrapper that borrowed the
   * player before another thread's release still holds a live player
   * afterwards, and the teardown happens at the borrower's own
   * ijkmp_dec_ref exactly when the slot and that borrow were the only
   * references.
   */
  lemma BorrowOutlivesRelease(s: State)
    requires Valid(s)
    requires s.slot != NULL
    ensures var (s1, mp) := Acquire(s);
      && SlotCounted(s1)
      && var s2 := Release(s1);
      && s2.slot == NULL && mp in s2.shut
      && mp in s2.holders && Alive(s2, mp)
      && var s3 := DecRef(s2, mp);
      && Valid(s3)
      && (mp in s3.destroyed <==> s.refs[mp] == 1)
  {
    AcquireBorrows(s);
    var (s1, mp) := Acquire(s);
    ReleaseRetires(s1);
    var s2 := Release(s1);
    assert s2.refs[mp] == s.refs[mp];
    DecRefValid(s2, mp);
  }
}
