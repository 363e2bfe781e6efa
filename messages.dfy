/**
 * The fixed translation from an engine message (AVMessage: what, arg1,
 * arg2) to the event posted to the Java side through postEventFromNative
 * (the `switch` of IjkMediaPlayer_native_message_loop, ijkplayer_jni.c
 * lines 312-346).
 */
module Messages {
  import opened Optional

  // Engine message kinds (the FFP_MSG_* codes of the engine's headers).
  const FFP_MSG_FLUSH: int := 0
  const FFP_MSG_ERROR: int := 100
  const FFP_MSG_PREPARED: int := 200
  const FFP_MSG_COMPLETED: int := 300
  const FFP_MSG_VIDEO_SIZE_CHANGED: int := 400
  const FFP_MSG_SAR_CHANGED: int := 401
  const FFP_MSG_BUFFERING_START: int := 500
  const FFP_MSG_BUFFERING_END: int := 501
  const FFP_MSG_BUFFERING_UPDATE: int := 502
  const FFP_MSG_SEEK_COMPLETE: int := 600

  // Host event codes (the MEDIA_* codes of android.media.MediaPlayer that ijkplayer mirrors).
  const MEDIA_NOP: int := 0
  const MEDIA_PREPARED: int := 1
  const MEDIA_PLAYBACK_COMPLETE: int := 2
  const MEDIA_BUFFERING_UPDATE: int := 3
  const MEDIA_SEEK_COMPLETE: int := 4
  const MEDIA_SET_VIDEO_SIZE: int := 5
  const MEDIA_ERROR: int := 100
  const MEDIA_INFO: int := 200
  const MEDIA_SET_VIDEO_SAR: int := 10001
  const MEDIA_INFO_BUFFERING_START: int := 701
  const MEDIA_INFO_BUFFERING_END: int := 702
  const MEDIA_ERROR_IJK_PLAYER: int := -10000

  /** An engine message as ijkmp_get_msg fills it in. */
  datatype Message = Message(what: int, arg1: int, arg2: int)

  /** The (what, arg1, arg2) passed to postEventFromNative. */
  datatype Event = Event(what: int, arg1: int, arg2: int)

  /** The message kinds the switch has a case for. */
  predicate KnownKind(what: int)
  {
    what in {FFP_MSG_FLUSH, FFP_MSG_ERROR, FFP_MSG_PREPARED, FFP_MSG_COMPLETED,
             FFP_MSG_VIDEO_SIZE_CHANGED, FFP_MSG_SAR_CHANGED, FFP_MSG_BUFFERING_START,
             FFP_MSG_BUFFERING_END, FFP_MSG_BUFFERING_UPDATE, FFP_MSG_SEEK_COMPLETE}
  }

  /** The event one message posts; None for the `default:` case, which only logs. */
  function Translate(msg: Message): (e: Option<Event>)
    ensures e.Some? <==> KnownKind(msg.what)
  {
    if msg.what == FFP_MSG_FLUSH then Some(Event(MEDIA_NOP, 0, 0))
    else if msg.what == FFP_MSG_ERROR then Some(Event(MEDIA_ERROR, MEDIA_ERROR_IJK_PLAYER, msg.arg1))
    else if msg.what == FFP_MSG_PREPARED then Some(Event(MEDIA_PREPARED, 0, 0))
    else if msg.what == FFP_MSG_COMPLETED then Some(Event(MEDIA_PLAYBACK_COMPLETE, 0, 0))
    else if msg.what == FFP_MSG_VIDEO_SIZE_CHANGED then Some(Event(MEDIA_SET_VIDEO_SIZE, msg.arg1, msg.arg2))
    else if msg.what == FFP_MSG_SAR_CHANGED then Some(Event(MEDIA_SET_VIDEO_SAR, msg.arg1, msg.arg2))
    else if msg.what == FFP_MSG_BUFFERING_START then Some(Event(MEDIA_INFO, MEDIA_INFO_BUFFERING_START, 0))
    else if msg.what == FFP_MSG_BUFFERING_END then Some(Event(MEDIA_INFO, MEDIA_INFO_BUFFERING_END, 0))
    else if msg.what == FFP_MSG_BUFFERING_UPDATE then Some(Event(MEDIA_BUFFERING_UPDATE, msg.arg1, msg.arg2))
    else if msg.what == FFP_MSG_SEEK_COMPLETE then Some(Event(MEDIA_SEEK_COMPLETE, 0, 0))
    else None
  }

  /**
   * Reads back, from a posted event alone, the engine message kind that
   * produced it: the host can always tell which kind of message it got.
   */
  function SourceKind(e: Event): Option<int>
  {
    if e.what == MEDIA_NOP then Some(FFP_MSG_FLUSH)
    else if e.what == MEDIA_ERROR then Some(FFP_MSG_ERROR)
    else if e.what == MEDIA_PREPARED then Some(FFP_MSG_PREPARED)
    else if e.what == MEDIA_PLAYBACK_COMPLETE then Some(FFP_MSG_COMPLETED)
    else if e.what == MEDIA_SET_VIDEO_SIZE then Some(FFP_MSG_VIDEO_SIZE_CHANGED)
    else if e.what == MEDIA_SET_VIDEO_SAR then Some(FFP_MSG_SAR_CHANGED)
    else if e.what == MEDIA_INFO && e.arg1 == MEDIA_INFO_BUFFERING_START then Some(FFP_MSG_BUFFERING_START)
    else if e.what == MEDIA_INFO && e.arg1 == MEDIA_INFO_BUFFERING_END then Some(FFP_MSG_BUFFERING_END)
    else if e.what == MEDIA_BUFFERING_UPDATE then Some(FFP_MSG_BUFFERING_UPDATE)
    else if e.what == MEDIA_SEEK_COMPLETE then Some(FFP_MSG_SEEK_COMPLETE)
    else None
  }

  /** The translation keeps the message kind: SourceKind undoes it on every posted event. */
  lemma TranslateKeepsKind(msg: Message)
    requires KnownKind(msg.what)
    ensures SourceKind(Translate(msg).value) == Some(msg.what)
  {
  }

  /** Two messages of different kinds never post the same event. */
  lemma TranslateInjectiveOnKinds(m1: Message, m2: Message)
    requires Translate(m1).Some? && Translate(m2).Some?
    requires Translate(m1) == Translate(m2)
    ensures m1.what == m2.what
  {
    TranslateKeepsKind(m1);
    TranslateKeepsKind(m2);
  }

  /** The table, case by case. */
  lemma TranslationTable(msg: Message)
    ensures msg.what == FFP_MSG_FLUSH ==> Translate(msg) == Some(Event(MEDIA_NOP, 0, 0))
    ensures msg.what == FFP_MSG_ERROR ==>
              Translate(msg) == Some(Event(MEDIA_ERROR, MEDIA_ERROR_IJK_PLAYER, msg.arg1))
    ensures msg.what == FFP_MSG_PREPARED ==> Translate(msg) == Some(Event(MEDIA_PREPARED, 0, 0))
    ensures msg.what == FFP_MSG_COMPLETED ==> Translate(msg) == Some(Event(MEDIA_PLAYBACK_COMPLETE, 0, 0))
    ensures msg.what == FFP_MSG_SEEK_COMPLETE ==> Translate(msg) == Some(Event(MEDIA_SEEK_COMPLETE, 0, 0))
    ensures msg.what == FFP_MSG_VIDEO_SIZE_CHANGED ==>
              Translate(msg) == Some(Event(MEDIA_SET_VIDEO_SIZE, msg.arg1, msg.arg2))
    ensures msg.what == FFP_MSG_SAR_CHANGED ==>
              Translate(msg) == Some(Event(MEDIA_SET_VIDEO_SAR, msg.arg1, msg.arg2))
    ensures msg.what == FFP_MSG_BUFFERING_UPDATE ==>
              Translate(msg) == Some(Event(MEDIA_BUFFERING_UPDATE, msg.arg1, msg.arg2))
    ensures msg.what == FFP_MSG_BUFFERING_START ==>
              Translate(msg) == Some(Event(MEDIA_INFO, MEDIA_INFO_BUFFERING_START, 0))
    ensures msg.what == FFP_MSG_BUFFERING_END ==>
              Translate(msg) == Some(Event(MEDIA_INFO, MEDIA_INFO_BUFFERING_END, 0))
    ensures !KnownKind(msg.what) ==> Translate(msg) == None
  {
  }

  /** Size, aspect-ratio and buffering-progress messages forward both arguments unchanged. */
  lemma ForwardingKinds(msg: Message)
    requires msg.what in {FFP_MSG_VIDEO_SIZE_CHANGED, FFP_MSG_SAR_CHANGED, FFP_MSG_BUFFERING_UPDATE}
    ensures Translate(msg).Some?
    ensures Translate(msg).value.arg1 == msg.arg1 && Translate(msg).value.arg2 == msg.arg2
  {
  }
}
