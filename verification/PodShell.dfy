/** Shell sessions: a stream that fills a buffer, readers that drain it, and a manager that lists,
    drops and closes sessions. Every event below is one critical section, so a trace is any
    interleaving of the streamer, the readers and the manager. */
module PodShell {

  datatype Event =
    | Emit(data: string)        // the stream writes
    | EndStream(notice: string) // the stream returns; the notice is empty when it returned cleanly
    | Drain                     // a reader that holds the session takes the buffer
    | Miss                      // a reader finds the session unlisted and is told to exit
    | Drop                      // the manager takes the session off its list
    | Close                     // the manager closes the session it took off

  function Written(e: Event): string {
    match e
    case Emit(data) => data
    case EndStream(notice) => notice
    case _ => ""
  }

  /** Everything the stream produced, the notice of its end included. */
  function Output(t: seq<Event>): string {
    if t == [] then ""
    else
      var before := Output(t[..|t| - 1]);
      match t[|t| - 1]
      case Emit(data) => before + data
      case EndStream(notice) => before + notice
      case _ => before
  }

  /** What waits in the buffer. */
  function Buffered(t: seq<Event>): string {
    if t == [] then ""
    else if t[|t| - 1].Drain? then ""
    else Buffered(t[..|t| - 1]) + Written(t[|t| - 1])
  }

  /** What the readers were given, in the order in which they took it. */
  function Delivered(t: seq<Event>): string {
    if t == [] then ""
    else
      var before := t[..|t| - 1];
      Delivered(before) + if t[|t| - 1].Drain? then Buffered(before) else ""
  }

  predicate Ended(t: seq<Event>) {
    t != [] && (t[|t| - 1].EndStream? || Ended(t[..|t| - 1]))
  }

  predicate Closed(t: seq<Event>) {
    t != [] && (t[|t| - 1].Close? || t[|t| - 1].EndStream? || Closed(t[..|t| - 1]))
  }

  /** The stream ended before anything closed the session. */
  predicate EndedAlone(t: seq<Event>) {
    t != [] && var before := t[..|t| - 1]; EndedAlone(before) || (t[|t| - 1].EndStream? && !Closed(before))
  }

  predicate Dropped(t: seq<Event>) {
    t != [] && (t[|t| - 1].Drop? || Dropped(t[..|t| - 1]))
  }

  /** The last event of the trace tells a reader that the session is over. */
  predicate ExitReply(t: seq<Event>) {
    t != [] && var last := t[|t| - 1]; last.Miss? || (last.Drain? && Closed(t[..|t| - 1]))
  }

  /** May `e` follow `t`? A stream that ended by itself writes no more, but one that was cancelled may
      still have a write under way; a session is closed or missed only after it was taken off. */
  predicate MayFollow(t: seq<Event>, e: Event) {
    match e
    case Emit(_) => !EndedAlone(t)
    case EndStream(_) => !Ended(t)
    case Close => Dropped(t)
    case Miss => Dropped(t)
    case _ => true
  }

  predicate Legal(t: seq<Event>) {
    t == [] || (Legal(t[..|t| - 1]) && MayFollow(t[..|t| - 1], t[|t| - 1]))
  }

  // ---------------------------------------------------------------- what readers can rely on

  /** No byte is lost, repeated or reordered between the stream, the buffer and the readers. */
  lemma {:induction false} Conservation(t: seq<Event>)
    ensures Delivered(t) + Buffered(t) == Output(t)
  {
    if t != [] {
      Conservation(t[..|t| - 1]);
    }
  }

  /** A reader that takes the buffer leaves nothing behind: the readers then hold all the output so far. */
  lemma DrainTakesAll(t: seq<Event>)
    requires t != [] && t[|t| - 1].Drain?
    ensures Delivered(t) == Output(t)
  {
    Conservation(t);
    assert Buffered(t) == "";
  }

  lemma {:induction false} ClosedIff(t: seq<Event>)
    ensures Closed(t) <==> exists i :: 0 <= i < |t| && (t[i].Close? || t[i].EndStream?)
    ensures Dropped(t) <==> exists i :: 0 <= i < |t| && t[i].Drop?
  {
    if t != [] {
      var n := |t| - 1;
      ClosedIff(t[..n]);
      assert forall i :: 0 <= i < n ==> t[..n][i] == t[i];
    }
  }

  /** A reader is told to exit exactly when it finds no session, or takes the buffer of one that the stream or
      the manager ended before. */
  lemma ExitReplyIff(t: seq<Event>)
    ensures ExitReply(t) <==>
            && t != []
            && (t[|t| - 1].Miss?
                || (t[|t| - 1].Drain? && exists i :: 0 <= i < |t| - 1 && (t[i].Close? || t[i].EndStream?)))
  {
    if t != [] {
      var n := |t| - 1;
      ClosedIff(t[..n]);
      assert forall i :: 0 <= i < n ==> t[..n][i] == t[i];
    }
  }

  /** A stream that ended by itself has produced all it ever will. */
  lemma {:induction false} OutputIsFinal(past: seq<Event>, t: seq<Event>)
    requires past <= t && Legal(t) && EndedAlone(past)
    ensures Output(t) == Output(past) && EndedAlone(t) && Ended(t)
    decreases |t|
  {
    if past == t {
      EndedAloneEnded(t);
    } else {
      assert past <= t[..|t| - 1];
      OutputIsFinal(past, t[..|t| - 1]);
    }
  }

  lemma {:induction false} EndedAloneEnded(t: seq<Event>)
    requires EndedAlone(t)
    ensures Ended(t)
  {
    if EndedAlone(t[..|t| - 1]) {
      EndedAloneEnded(t[..|t| - 1]);
    }
  }

  /** What the readers hold is the whole output of every run that goes on from here exactly when the
      stream ended before any close and nothing waits in the buffer. */
  lemma DeliveredIsFinalIff(past: seq<Event>)
    requires Legal(past)
    ensures (forall t :: past <= t && Legal(t) ==> Output(t) == Delivered(past))
            <==> EndedAlone(past) && Buffered(past) == ""
  {
    Conservation(past);
    if EndedAlone(past) {
      forall t | past <= t && Legal(t)
        ensures Output(t) == Output(past)
      {
        OutputIsFinal(past, t);
      }
      assert past <= past;
    } else {
      var t := past + [Emit("x")];
      assert t[..|t| - 1] == past;
      assert past <= t && |Output(t)| == |Output(past)| + 1;
    }
  }

  lemma {:induction false} ClosedByTheStream(t: seq<Event>)
    requires Legal(t) && !Dropped(t)
    ensures Closed(t) ==> EndedAlone(t)
  {
    if t != [] {
      ClosedByTheStream(t[..|t| - 1]);
    }
  }

  /** While nobody takes the session off the list, the reply that first says exit completes the output:
      the readers then hold all of it, whatever happens later. */
  lemma ExitCompletesOutput(past: seq<Event>, t: seq<Event>)
    requires Legal(past) && ExitReply(past) && !Dropped(past)
    requires past <= t && Legal(t)
    ensures Output(t) == Delivered(past)
    ensures Delivered(t) == Delivered(past)
  {
    ClosedByTheStream(past);
    DeliveredIsFinalIff(past);
    Conservation(t);
    DeliveredGrows(past, t);
    assert |Delivered(t)| <= |Output(t)|;
  }

  lemma {:induction false} DeliveredGrows(past: seq<Event>, t: seq<Event>)
    requires past <= t
    ensures Delivered(past) <= Delivered(t)
    decreases |t|
  {
    if past != t {
      assert past <= t[..|t| - 1];
      DeliveredGrows(past, t[..|t| - 1]);
    }
  }

  /** A session that is taken off can tell a reader to exit before the stream's last bytes are written:
      closing comes first, and a write under way lands behind the exit. */
  lemma ExitAfterCloseLosesOutput()
    ensures exists past: seq<Event>, t: seq<Event> ::
              past <= t && Legal(t) && ExitReply(past) && past[|past| - 1].Drain?
                              && Delivered(past) != Output(t)
  {
    var past := [Drop, Close, Drain];
    var t := past + [Emit("x")];
    assert past[..2] == [Drop, Close] && past[..2][..1] == [Drop] && past[..2][..1][..0] == [];
    assert t[..3] == past;
    Conservation(past);
    assert |Output(t)| == |Output(past)| + 1;
    assert Legal(past) by {
      var one := past[..2][..1];
      assert one[..0] == [] && one[0] == Drop && Legal(one[..0]);
      assert Legal(one) && Dropped(one) && past[..2][1] == Close;
      assert Legal(past[..2]);
    }
    assert !EndedAlone(past) by {
      assert !EndedAlone([Drop, Close]) && ![Drop, Close][1].EndStream?;
    }
    assert past <= t && Legal(t) && ExitReply(past) && past[2].Drain?;
  }

  // ---------------------------------------------------------------- sessions and their manager

  class Session {
    var outBuf: string
    var closed: bool
    var lastUsed: int
    ghost var past: seq<Event>

    ghost predicate Valid()
      reads this
    {
      Legal(past) && outBuf == Buffered(past) && closed == Closed(past)
    }

    constructor (now: int)
      ensures Valid() && past == [] && lastUsed == now
    {
      outBuf, closed, lastUsed, past := "", false, now, [];
    }

    /** The stream's writer. */
    method Write(p: string, now: int)
      requires Valid() && !EndedAlone(past)
      modifies this
      ensures Valid() && past == old(past) + [Emit(p)] && lastUsed == now
    {
      assert (past + [Emit(p)])[..|past|] == past;
      past := past + [Emit(p)];
      outBuf := outBuf + p;
      lastUsed := now;
    }

    /** The stream returned; an error other than a cancellation leaves a notice. */
    method StreamEnded(notice: string)
      requires Valid() && !Ended(past)
      modifies this
      ensures Valid() && closed && past == old(past) + [EndStream(notice)] && lastUsed == old(lastUsed)
    {
      assert (past + [EndStream(notice)])[..|past|] == past;
      past := past + [EndStream(notice)];
      closed := true;
      outBuf := outBuf + notice;
    }

    /** Takes the buffer. The data is what the trace says a reader gets, and the flag is the exit reply. */
    method TakeBuffer(now: int) returns (data: string, exit: bool)
      requires Valid()
      modifies this
      ensures Valid() && past == old(past) + [Drain] && lastUsed == now
      ensures data == Buffered(old(past)) && Delivered(past) == Delivered(old(past)) + data
      ensures exit == ExitReply(past)
    {
      assert (past + [Drain])[..|past|] == past;
      past := past + [Drain];
      data, outBuf, exit := outBuf, "", closed;
      lastUsed := now;
    }

    method Shut()
      requires Valid() && Dropped(past)
      modifies this
      ensures Valid() && closed && past == old(past) + [Close] && lastUsed == old(lastUsed)
    {
      assert (past + [Close])[..|past|] == past;
      past := past + [Close];
      closed := true;
    }

    ghost method NoteDrop()
      requires Valid()
      modifies this`past
      ensures Valid() && past == old(past) + [Drop]
    {
      assert (past + [Drop])[..|past|] == past;
      past := past + [Drop];
    }
  }

  /** The rest of a read, on what the lookup gave: no data and an exit without a session, otherwise what
      waits in its buffer at that moment, even when it was taken off and closed since. */
  method Reply(s: Session?, now: int) returns (data: string, exit: bool)
    requires s != null ==> s.Valid()
    modifies s
    ensures s == null ==> data == "" && exit
    ensures s != null ==> s.Valid() && s.past == old(s.past) + [Drain] && exit == ExitReply(s.past)
    ensures s != null ==> data == Buffered(old(s.past)) && Delivered(s.past) == Delivered(old(s.past)) + data
  {
    if s == null {
      return "", true;
    }
    ghost var was := s.past;
    data, exit := s.TakeBuffer(now);
    assert s.past[..|was|] == was;
  }

  /** A session's identifier, drawn at random and never drawn twice. */
  type Id = nat

  class Manager {
    var sessions: map<Id, Session>
    const idleTimeout: int

    /** Listed sessions are distinct and were never taken off. */
    ghost predicate Valid()
      reads this, sessions.Values
    {
      && (forall id :: id in sessions ==> sessions[id].Valid() && !Dropped(sessions[id].past))
      && (forall id, id' :: id in sessions && id' in sessions && sessions[id] == sessions[id'] ==> id == id')
    }

    constructor (idleTimeout: int)
      ensures Valid() && sessions == map[] && this.idleTimeout == idleTimeout
    {
      this.idleTimeout, sessions := idleTimeout, map[];
    }

    /** Lists a session under an identifier that was not used before. */
    method Open(id: Id, now: int) returns (s: Session)
      requires Valid() && id !in sessions
      modifies this
      ensures Valid() && fresh(s) && s.past == [] && sessions == old(sessions)[id := s]
    {
      s := new Session(now);
      sessions := sessions[id := s];
    }

    /** The first critical section of every request: the listed session, if there is one. What happens to
        it before the caller goes on is up to the trace. */
    method Lookup(id: Id) returns (s: Session?)
      requires Valid()
      ensures (s == null) == (id !in sessions)
      ensures s != null ==> s == sessions[id] && s.Valid() && !Dropped(s.past)
    {
      return if id in sessions then sessions[id] else null;
    }

    /** Takes a session off the list. */
    method TakeOff(id: Id) returns (s: Session)
      requires Valid() && id in sessions
      modifies this, sessions[id]
      ensures Valid() && s == old(sessions)[id] && sessions == old(sessions) - {id} && s !in sessions.Values
      ensures s.Valid() && s.past == old(sessions[id].past) + [Drop] && Dropped(s.past)
      ensures s.lastUsed == old(sessions[id].lastUsed)
    {
      s := sessions[id];
      sessions := sessions - {id};
      s.NoteDrop();
    }

    /** Takes a session off the list and closes it; the others stay as they are. */
    method DropAndClose(id: Id)
      requires Valid()
      modifies this, sessions.Values
      ensures Valid() && sessions == old(sessions) - {id}
      ensures id in old(sessions) ==> old(sessions)[id].closed && old(sessions)[id].Valid()
                                      && old(sessions)[id].past == old(sessions[id].past) + [Drop, Close]
      ensures forall k :: k in sessions ==> sessions[k].past == old(sessions[k].past)
    {
      if id in sessions {
        var s := TakeOff(id);
        s.Shut();
      }
    }

    /** Sessions that were taken off, under the identifiers they had. */
    ghost predicate Off(gone: map<Id, Session>)
      reads this, gone.Values
    {
      && (forall id :: id in gone ==> gone[id].Valid() && Dropped(gone[id].past))
      && (forall id, k :: id in gone && k in sessions ==> gone[id] != sessions[k])
    }

    method TakeOffOne(id: Id, gone: map<Id, Session>) returns (more: map<Id, Session>)
      requires Valid() && Off(gone) && id in sessions
      modifies this, sessions[id]
      ensures Valid() && Off(more) && sessions == old(sessions) - {id} && more == gone[id := old(sessions)[id]]
      ensures forall k :: k in sessions ==> sessions[k].past == old(sessions[k].past)
    {
      var s := TakeOff(id);
      more := gone[id := s];
    }

    /** Takes a set of sessions off the list. */
    method TakeOffAll(ids: set<Id>) returns (gone: map<Id, Session>)
      requires Valid() && ids <= sessions.Keys
      modifies this, sessions.Values
      ensures Valid() && sessions == old(sessions) - ids
      ensures Off(gone) && gone.Keys == ids && forall id :: id in ids ==> gone[id] == old(sessions)[id]
      ensures forall id :: id in sessions ==> sessions[id].past == old(sessions[id].past)
    {
      ghost var all := sessions;
      gone := map[];
      var todo := ids;
      while todo != {}
        invariant Valid() && Off(gone)
        invariant forall id :: id in ids <==> id in gone || id in todo
        invariant forall id :: id in sessions <==> id in all && id !in gone
        invariant forall id :: id in todo ==> id in sessions
        invariant forall id :: id in gone ==> gone[id] == all[id]
        invariant forall id :: id in sessions ==> sessions[id] == all[id] && sessions[id].past == old(all[id].past)
        decreases todo
      {
        var id :| id in todo;
        todo := todo - {id};
        gone := TakeOffOne(id, gone);
      }
    }

    /** Closes sessions that were taken off. */
    method ShutAll(gone: map<Id, Session>)
      requires Valid() && Off(gone)
      modifies gone.Values
      ensures Valid() && sessions == old(sessions)
      ensures forall id :: id in gone ==> gone[id].Valid() && gone[id].closed
    {
      var todo := gone.Keys;
      while todo != {}
        invariant todo <= gone.Keys && Valid() && sessions == old(sessions) && Off(gone)
        invariant forall id :: id in gone && id !in todo ==> gone[id].closed
        decreases todo
      {
        var id :| id in todo;
        todo := todo - {id};
        gone[id].Shut();
      }
    }

    /** Takes off and closes exactly the sessions that were idle for longer than the timeout. */
    method Reap(now: int)
      requires Valid()
      modifies this, sessions.Values
      ensures Valid()
      ensures forall id :: id in sessions <==> id in old(sessions) && now - old(sessions[id].lastUsed) <= idleTimeout
      ensures forall id :: id in sessions ==> sessions[id] == old(sessions)[id]
      ensures forall id :: id in old(sessions) && id !in sessions ==> old(sessions)[id].closed
      ensures forall id :: id in sessions ==> sessions[id].past == old(sessions[id].past)
    {
      var expired := set id | id in sessions && now - sessions[id].lastUsed > idleTimeout;
      var gone := TakeOffAll(expired);
      ShutAll(gone);
    }

    method CloseAll()
      requires Valid()
      modifies this, sessions.Values
      ensures Valid() && sessions == map[]
      ensures forall id :: id in old(sessions) ==> old(sessions)[id].closed
    {
      var gone := TakeOffAll(sessions.Keys);
      ShutAll(gone);
    }
  }
}
