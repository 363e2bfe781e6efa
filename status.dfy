/**
 * The Java exception a native entry point leaves pending, and the
 * classification of engine status codes made by IJK_CHECK_MPRET_GOTO
 * (ijkplayer_jni.c, lines 36-39).
 */
module Status {

  /** Engine error codes returned by ijkmp_* calls (declared in the engine's headers). */
  const EIJK_OUT_OF_MEMORY: int := -2
  const EIJK_INVALID_STATE: int := -3

  /** The exception thrown into the Java caller, if any. */
  datatype Raised =
    | NoError
    | IllegalArgument    // java/lang/IllegalArgumentException
    | IllegalState       // java/lang/IllegalStateException
    | OutOfMemory        // java/lang/OutOfMemoryError
    | IjkMediaException  // tv/danmaku/ijk/media/player/IjkMediaException

  /**
   * IJK_CHECK_MPRET_GOTO exactly as the macro is written: three
   * JNI_CHECK_GOTO guards in a row, each of which throws when its
   * condition is FALSE.  The third guard's condition is `retval < 0`,
   * so it throws on every non-negative status.
   */
  function CheckMpRetAsWritten(retval: int): (r: Raised)
    ensures r == NoError <==>
              retval < 0 && retval != EIJK_INVALID_STATE && retval != EIJK_OUT_OF_MEMORY
    ensures r == IjkMediaException <==> retval >= 0
    ensures r == IllegalState <==> retval == EIJK_INVALID_STATE
    ensures r == OutOfMemory <==> retval == EIJK_OUT_OF_MEMORY
  {
    if !(retval != EIJK_INVALID_STATE) then IllegalState
    else if !(retval != EIJK_OUT_OF_MEMORY) then OutOfMemory
    else if !(retval < 0) then IjkMediaException
    else NoError
  }

  /**
   * The classification the macro is meant to make, and the one the rest
   * of the model uses: the two engine codes it names first, then any other
   * failure (a negative status), and success for everything else.
   */
  function CheckMpRet(retval: int): (r: Raised)
    ensures r == NoError <==> retval >= 0
    ensures r == IllegalState <==> retval == EIJK_INVALID_STATE
    ensures r == OutOfMemory <==> retval == EIJK_OUT_OF_MEMORY
    ensures r == IjkMediaException <==>
              retval < 0 && retval != EIJK_INVALID_STATE && retval != EIJK_OUT_OF_MEMORY
    ensures r != IllegalArgument
  {
    if retval == EIJK_INVALID_STATE then IllegalState
    else if retval == EIJK_OUT_OF_MEMORY then OutOfMemory
    else if retval < 0 then IjkMediaException
    else NoError
  }

  /**
   * The macro as written inverts the generic case: apart from the two
   * named codes, it raises IjkMediaException exactly when the intended
   * classification reports success, and stays silent exactly when the
   * intended one raises.
   */
  lemma AsWrittenInvertsGenericCase(retval: int)
    requires retval != EIJK_INVALID_STATE && retval != EIJK_OUT_OF_MEMORY
    ensures CheckMpRetAsWritten(retval) == IjkMediaException <==> CheckMpRet(retval) == NoError
    ensures CheckMpRetAsWritten(retval) == NoError <==> CheckMpRet(retval) == IjkMediaException
  {
  }

  /** Concrete witness: a successful set_data_source or prepare_async (status 0) raises as written. */
  lemma AsWrittenRaisesOnSuccess()
    ensures CheckMpRet(0) == NoError
    ensures CheckMpRetAsWritten(0) == IjkMediaException
  {
  }

  /** The two named engine codes are classified the same way by both versions. */
  lemma AsWrittenAgreesOnNamedCodes(retval: int)
    requires retval == EIJK_INVALID_STATE || retval == EIJK_OUT_OF_MEMORY
    ensures CheckMpRetAsWritten(retval) == CheckMpRet(retval)
  {
  }
}
