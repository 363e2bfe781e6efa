/**
 * What the message loop of IjkMediaPlayer_native_message_loop
 * (ijkplayer_jni.c, lines 302-347) consumes and posts, as functions of
 * the sequence of results ijkmp_get_msg returns.
 */
module Pump {
  import opened Optional
  import opened Messages

  /** One ijkmp_get_msg call: its return value and the message it filled in. */
  datatype Dequeue = Dequeue(ret: int, msg: Message)

  /**
   * The results the loop acts on: every result before the first negative
   * return value (the loop's `break`), or all of them if none is negative.
   */
  function Consumed(script: seq<Dequeue>): (c: seq<Dequeue>)
    ensures |c| <= |script| && c == script[..|c|]
    ensures forall k :: 0 <= k < |c| ==> c[k].ret >= 0
    ensures |c| == |script| || script[|c|].ret < 0
  {
    if script == [] || script[0].ret < 0 then []
    else [script[0]] + Consumed(script[1..])
  }

  /** The events one message posts: none for an unknown kind. */
  function Emit(msg: Message): (es: seq<Event>)
    ensures |es| <= 1
    ensures |es| == 1 <==> KnownKind(msg.what)
  {
    match Translate(msg)
    case Some(e) => [e]
    case None => []
  }

  /** The events posted for a sequence of consumed results, in dequeue order. */
  function Posted(ds: seq<Dequeue>): (es: seq<Event>)
    ensures |es| <= |ds|
  {
    if ds == [] then [] else Emit(ds[0].msg) + Posted(ds[1..])
  }

  /** Consumed is exactly the prefix up to the first negative result. */
  lemma ConsumedUpTo(script: seq<Dequeue>, i: nat)
    requires i <= |script|
    requires forall k :: 0 <= k < i ==> script[k].ret >= 0
    requires i == |script| || script[i].ret < 0
    ensures Consumed(script) == script[..i]
  {
  }

  /** Nothing dequeued after end of stream is ever looked at. */
  lemma EndOfStreamStops(a: seq<Dequeue>, d: Dequeue, rest: seq<Dequeue>)
    requires forall k :: 0 <= k < |a| ==> a[k].ret >= 0
    requires d.ret < 0
    ensures Consumed(a + [d] + rest) == a
  {
    var script := a + [d] + rest;
    assert script[..|a|] == a;
    ConsumedUpTo(script, |a|);
  }

  /** Posting is order-preserving: the events of a concatenation are the concatenated events. */
  lemma {:induction false} PostedAppend(a: seq<Dequeue>, b: seq<Dequeue>)
    ensures Posted(a + b) == Posted(a) + Posted(b)
  {
    if a == [] {
      assert a + b == b;
    } else {
      assert (a + b)[1..] == a[1..] + b;
      PostedAppend(a[1..], b);
    }
  }

  /** An unknown kind is skipped and the loop goes on to post what follows it. */
  lemma UnknownSkipped(a: seq<Dequeue>, d: Dequeue, b: seq<Dequeue>)
    requires !KnownKind(d.msg.what)
    ensures Posted(a + [d] + b) == Posted(a) + Posted(b)
  {
    assert Translate(d.msg) == None;
    assert Posted([d]) == Emit(d.msg) + Posted([d][1..]);
    PostedAppend(a, [d]);
    PostedAppend(a + [d], b);
  }

  /**
   * When every message is of a known kind, the k-th event posted is the
   * translation of the k-th message dequeued: one event per message, in
   * dequeue order.
   */
  lemma {:induction false} PostedOneToOne(ds: seq<Dequeue>)
    requires forall k :: 0 <= k < |ds| ==> KnownKind(ds[k].msg.what)
    ensures |Posted(ds)| == |ds|
    ensures forall k :: 0 <= k < |ds| ==> Posted(ds)[k] == Translate(ds[k].msg).value
  {
    if ds != [] {
      PostedOneToOne(ds[1..]);
      assert Emit(ds[0].msg) == [Translate(ds[0].msg).value];
      forall k | 0 <= k < |ds|
        ensures Posted(ds)[k] == Translate(ds[k].msg).value
      {
        if k > 0 {
          assert ds[1..][k - 1] == ds[k];
        }
      }
    }
  }

  /** Every posted event is the translation of some consumed message, and every known message posts one. */
  lemma {:induction false} PostedExactlyTranslations(ds: seq<Dequeue>, e: Event)
    ensures e in Posted(ds) <==> exists k :: 0 <= k < |ds| && Translate(ds[k].msg) == Some(e)
  {
    if ds != [] {
      PostedExactlyTranslations(ds[1..], e);
      if e in Posted(ds[1..]) {
        var k :| 0 <= k < |ds[1..]| && Translate(ds[1..][k].msg) == Some(e);
        assert Translate(ds[k + 1].msg) == Some(e);
      }
      if exists k :: 0 <= k < |ds| && Translate(ds[k].msg) == Some(e) {
        var k :| 0 <= k < |ds| && Translate(ds[k].msg) == Some(e);
        if k > 0 {
          assert ds[1..][k - 1] == ds[k];
        }
      }
    }
  }
}
