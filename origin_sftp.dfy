/**
 * The origin SFTP repository (SftpOriginRepositoryImpl): `readFile` takes a
 * session out of the pool and hands back a stream that returns it when
 * closed; on an error before the stream exists the session is returned at
 * once.
 *
 * Sessions are objects with a checked-out flag, call counters and a log of
 * the calls made on them. Whether each remote call throws is a parameter.
 */
module OriginSftp {
  import opened Wrappers

  /** The calls the stream's `close` makes, in the order it makes them. */
  datatype SessionEvent = RawClose | FinalizeRaw | SessionClose

  /** Which of the checked steps of `close` threw the rethrown `IOException`. */
  datatype CloseStep = RawCloseStep | FinalizeRawStep

  /**
   * The calls the first `close` makes: the raw stream, then `finalizeRaw`
   * unless the raw close threw, then always `session.close()`.
   */
  function CloseSequence(rawCloseFails: bool): (evs: seq<SessionEvent>)
    ensures |evs| >= 2 && evs[0] == RawClose && evs[|evs| - 1] == SessionClose
    ensures FinalizeRaw in evs <==> !rawCloseFails
    ensures forall i :: 0 <= i < |evs| - 1 ==> evs[i] != SessionClose
  {
    if rawCloseFails then [RawClose, SessionClose] else [RawClose, FinalizeRaw, SessionClose]
  }

  /** What the first `close` throws: the first failing step's exception, or nothing. */
  function CloseOutcome(rawCloseFails: bool, finalizeFails: bool): (r: Outcome<CloseStep>)
    ensures r.Pass? <==> !rawCloseFails && !finalizeFails
    ensures rawCloseFails ==> r == Fail(RawCloseStep)
    ensures !rawCloseFails && finalizeFails ==> r == Fail(FinalizeRawStep)
  {
    if rawCloseFails then Fail(RawCloseStep)
    else if finalizeFails then Fail(FinalizeRawStep)
    else Pass
  }

  /** A session borrowed from the pool. */
  class PooledSession {
    var checkedOut: bool
    var closeCalls: nat
    var finalizeRawCalls: nat
    var log: seq<SessionEvent>

    /** `getSession()`: a session that is now checked out and untouched. */
    constructor ()
      ensures checkedOut && closeCalls == 0 && finalizeRawCalls == 0 && log == []
    {
      checkedOut := true;
      closeCalls := 0;
      finalizeRawCalls := 0;
      log := [];
    }

    /**
     * `session.close()`: hands the session back to the pool. Whether the
     * call throws is `fails`; the session counts as returned either way.
     */
    method Close(fails: bool) returns (r: Outcome<()>)
      modifies this
      ensures !checkedOut && closeCalls == old(closeCalls) + 1
      ensures finalizeRawCalls == old(finalizeRawCalls)
      ensures log == old(log) + [SessionClose]
      ensures r.Fail? <==> fails
    {
      checkedOut := false;
      closeCalls := closeCalls + 1;
      log := log + [SessionClose];
      r := if fails then Fail(()) else Pass;
    }
  }

  /** `SessionAwareInputStream`: the raw stream together with the session it came from. */
  class SessionAwareInputStream {
    const session: PooledSession
    const path: string
    var closed: bool

    /**
     * Until it is closed the stream holds its session, untouched; once it is
     * closed the session has been closed exactly once.
     */
    predicate Valid()
      reads this, session
    {
      (!closed ==> session.checkedOut && session.closeCalls == 0 && session.log == [])
      && (closed ==>
            !session.checkedOut && session.closeCalls == 1
            && (session.log == CloseSequence(true) || session.log == CloseSequence(false)))
    }

    constructor (session: PooledSession, path: string)
      requires session.checkedOut && session.closeCalls == 0 && session.log == []
      ensures this.session == session && this.path == path && !closed
      ensures Valid()
    {
      this.session := session;
      this.path := path;
      closed := false;
    }

    /**
     * `close()`: a no-op once closed. Otherwise the raw stream is closed, then
     * `finalizeRaw` is called unless that threw, then the session is closed
     * whatever happened, its failure swallowed; `closed` is set and the first
     * `IOException` is rethrown.
     */
    method Close(rawCloseFails: bool, finalizeFails: bool, sessionCloseFails: bool)
      returns (r: Outcome<CloseStep>)
      requires Valid()
      modifies this, session
      ensures Valid() && closed
      ensures old(closed) ==> r == Pass && unchanged(session)
      ensures !old(closed) ==>
        session.log == old(session.log) + CloseSequence(rawCloseFails)
        && session.closeCalls == old(session.closeCalls) + 1
        && session.finalizeRawCalls == old(session.finalizeRawCalls) + (if rawCloseFails then 0 else 1)
        && r == CloseOutcome(rawCloseFails, finalizeFails)
    {
      if closed {
        return Pass;
      }
      session.log := session.log + [RawClose];
      if rawCloseFails {
        r := Fail(RawCloseStep);
      } else {
        session.log := session.log + [FinalizeRaw];
        session.finalizeRawCalls := session.finalizeRawCalls + 1;
        r := if finalizeFails then Fail(FinalizeRawStep) else Pass;
      }
      var ignored := session.Close(sessionCloseFails);
      closed := true;
    }
  }

  /** The message of the `RuntimeException` `readFile` throws. */
  function ReadFailure(path: string): (msg: string)
    ensures |msg| > |path| && msg[|msg| - |path|..] == path
  {
    "Failed to read file from origin SFTP: " + path
  }

  /**
   * `readFile(path)`: borrow a session, open the raw stream and wrap it. If
   * borrowing fails nothing is closed; if opening fails the borrowed session
   * is closed (a failure there swallowed) before the error is thrown; on
   * success the session stays checked out, owned by the returned stream.
   * `acquired` is the session borrowed, if any.
   */
  method ReadFile(path: string, acquireOk: bool, openRawOk: bool, sessionCloseFails: bool)
    returns (r: Result<SessionAwareInputStream, string>, ghost acquired: Option<PooledSession>)
    ensures acquired.Some? <==> acquireOk
    ensures r.Failure? <==> !acquireOk || !openRawOk
    ensures r.Failure? ==> r.error == ReadFailure(path)
    ensures acquired.Some? ==> fresh(acquired.value)
    ensures acquired.Some? && r.Failure? ==>
      !acquired.value.checkedOut && acquired.value.closeCalls == 1 && acquired.value.log == [SessionClose]
    ensures r.Success? ==>
      fresh(r.value) && acquired == Some(r.value.session) && r.value.path == path
      && !r.value.closed && r.value.Valid()
  {
    if !acquireOk {
      return Failure(ReadFailure(path)), None;
    }
    var session := new PooledSession();
    acquired := Some(session);
    if !openRawOk {
      var ignored := session.Close(sessionCloseFails);
      return Failure(ReadFailure(path)), acquired;
    }
    var stream := new SessionAwareInputStream(session, path);
    r := Success(stream);
  }

  /** Whatever the raw close does, a first `close` ends with exactly one session close, as the last call. */
  lemma CloseReturnsSessionOnce(rawCloseFails: bool)
    ensures var evs := CloseSequence(rawCloseFails);
      |set i | 0 <= i < |evs| && evs[i] == SessionClose| == 1
  {
    var evs := CloseSequence(rawCloseFails);
    assert (set i | 0 <= i < |evs| && evs[i] == SessionClose) == {|evs| - 1};
  }
}
