/** The HTTP consumer of a job's stream against its producer: it pops with a time limit and, when
    nothing came, asks whether the stream is closed. The two questions are not one. */
module StreamConsumer {
  import opened ServiceProtocol

  /** Between calls, after a pop that brought nothing, gone by the closed check, or gone with the
      terminal event in hand. */
  datatype Consumer = Waiting | Empty | Left | Finished

  datatype Talk = Talk(unread: seq<Event>, delivered: seq<Event>, closed: bool, consumer: Consumer)

  const START: Talk := Talk([], [], false, Waiting)

  datatype Move = Push(event: Event) | Close | Pop | Check

  predicate Producer(m: Move) { m.Push? || m.Close? }

  ghost predicate Ended(t: Talk) {
    EndsOnce(t.delivered + t.unread)
  }

  /** The producer pushes up to its one terminal event and closes after it. */
  ghost predicate Possible(t: Talk, m: Move) {
    match m
    case Push(_) => !Ended(t) && !t.closed
    case Close => Ended(t) && !t.closed
    case Pop => t.consumer == Waiting
    case Check => t.consumer == Empty
  }

  function Next(t: Talk, m: Move): Talk {
    match m
    case Push(e) => t.(unread := t.unread + [e])
    case Close => t.(closed := true)
    case Pop =>
      if t.unread == [] then t.(consumer := Empty)
      else
        var e := t.unread[0];
        t.(unread := t.unread[1..], delivered := t.delivered + [e],
           consumer := if e.IsTerminal() then Consumer.Finished else Waiting)
    case Check => t.(consumer := if t.closed then Left else Waiting)
  }

  ghost predicate Run(t: Talk, moves: seq<Move>)
    decreases |moves|
  {
    moves == [] || (Possible(t, moves[0]) && Run(Next(t, moves[0]), moves[1..]))
  }

  ghost function At(t: Talk, moves: seq<Move>): Talk
    decreases |moves|
  {
    if moves == [] then t else At(Next(t, moves[0]), moves[1..])
  }

  /** A stream has at most one terminal event, its last; only a finished consumer has it. */
  ghost predicate Sound(t: Talk) {
    && (Ended(t) || NoTerminal(t.delivered + t.unread))
    && (t.closed ==> Ended(t))
    && (if t.consumer == Consumer.Finished then Ended(t) && t.unread == [] else NoTerminal(t.delivered))
    && (t.consumer == Left ==> t.closed)
  }

  lemma SoundStep(t: Talk, m: Move)
    requires Sound(t) && Possible(t, m)
    ensures Sound(Next(t, m))
  {
    var all := t.delivered + t.unread;
    match m
    case Push(e) =>
      assert t.delivered + (t.unread + [e]) == all + [e];
      EndsWith(all, e);
    case Pop =>
      if t.unread != [] {
        var e := t.unread[0];
        assert (t.delivered + [e]) + t.unread[1..] == all;
        assert all[|t.delivered|] == e;
      }
    case _ =>
  }

  lemma {:induction false} SoundRun(t: Talk, moves: seq<Move>)
    requires Sound(t) && Run(t, moves)
    ensures Sound(At(t, moves))
    decreases |moves|
  {
    hide Sound, Next, Possible;
    if moves != [] {
      SoundStep(t, moves[0]);
      SoundRun(Next(t, moves[0]), moves[1..]);
    }
  }

  ghost predicate PushesTerminal(moves: seq<Move>) {
    exists i :: 0 <= i < |moves| && moves[i].Push? && moves[i].event.IsTerminal()
  }

  lemma ProducerStep(t: Talk, m: Move)
    requires Sound(t) && Possible(t, m) && Producer(m)
    ensures var u := Next(t, m);
            && u.consumer == t.consumer && u.delivered == t.delivered
            && (Ended(u) <==> Ended(t) || (m.Push? && m.event.IsTerminal()))
            && (u.closed <==> t.closed || m == Close)
  {
    if m.Push? {
      var all := t.delivered + t.unread;
      assert t.delivered + (t.unread + [m.event]) == all + [m.event];
      EndsWith(all, m.event);
    }
  }

  lemma {:induction false} ProducerRun(t: Talk, moves: seq<Move>)
    requires Sound(t) && Run(t, moves) && forall i :: 0 <= i < |moves| ==> Producer(moves[i])
    ensures var u := At(t, moves);
            && u.consumer == t.consumer && u.delivered == t.delivered
            && (Ended(u) <==> Ended(t) || PushesTerminal(moves))
            && (u.closed <==> t.closed || Close in moves)
    decreases |moves|
  {
    hide Sound, Next, Possible, Ended;
    if moves != [] {
      var m, rest := moves[0], moves[1..];
      assert moves == [m] + rest;
      ProducerStep(t, m);
      SoundStep(t, m);
      ProducerRun(Next(t, m), rest);
      TerminalSplit(m, rest);
    }
  }

  lemma TerminalSplit(m: Move, rest: seq<Move>)
    ensures PushesTerminal([m] + rest) <==> (m.Push? && m.event.IsTerminal()) || PushesTerminal(rest)
  {
    var all := [m] + rest;
    if PushesTerminal(rest) {
      var i :| 0 <= i < |rest| && rest[i].Push? && rest[i].event.IsTerminal();
      assert all[i + 1] == rest[i];
    }
    assert all[0] == m;
  }

  /** Every run: a consumer gone by the closed check has left the terminal event unread, and one
      gone with it has read everything. */
  lemma GoneExactly(moves: seq<Move>)
    requires Run(START, moves)
    ensures var t := At(START, moves);
            && (t.consumer == Left ==> t.unread != [] && t.unread[|t.unread| - 1].IsTerminal() && NoTerminal(t.delivered))
            && (t.consumer == Consumer.Finished ==> t.unread == [] && EndsOnce(t.delivered))
  {
    SoundRun(START, moves);
    var t := At(START, moves);
    var all := t.delivered + t.unread;
    if t.consumer == Left {
      assert all[|all| - 1].IsTerminal();
    } else if t.consumer == Consumer.Finished {
      assert all == t.delivered;
    }
  }

  /** One turn of the loop: after a pop that brought nothing, the check sends the consumer away,
      with the terminal event unread, if and only if that event's push and the close both landed
      in between. Either alone, or neither, sends it back to the next pop. */
  lemma LeavesUnreadExactly(before: seq<Move>, mid: seq<Move>)
    requires Run(START, before)
    requires var t := At(START, before); t.consumer == Waiting && t.unread == [] && Run(Next(t, Pop), mid)
    requires forall i :: 0 <= i < |mid| ==> Producer(mid[i])
    ensures var u := At(Next(At(START, before), Pop), mid);
            && Possible(u, Check)
            && (Next(u, Check).consumer == Left <==> PushesTerminal(mid) && Close in mid)
            && (Next(u, Check).consumer == Left ==> u.unread != [] && u.unread[|u.unread| - 1].IsTerminal())
            && (Next(u, Check).consumer != Left ==> Next(u, Check).consumer == Waiting)
  {
    SoundRun(START, before);
    var t := At(START, before);
    assert t.delivered + t.unread == t.delivered;
    SoundStep(t, Pop);
    ProducerRun(Next(t, Pop), mid);
    SoundRun(Next(t, Pop), mid);
    var u := At(Next(t, Pop), mid);
    var all := u.delivered + u.unread;
    assert Ended(u) ==> all[|all| - 1].IsTerminal();
  }

  /** Both outcomes happen: the smallest run that loses the terminal event. */
  lemma CanLeaveUnread()
    ensures var moves := [Pop, Push(Event.Finished), Close, Check];
            Run(START, moves) && At(START, moves) == Talk([Event.Finished], [], true, Left)
  {
    var t1 := Next(START, Pop);
    var t2 := Next(t1, Push(Event.Finished));
    var t3 := Next(t2, Close);
    var moves := [Pop, Push(Event.Finished), Close, Check];
    assert moves[1..] == [Push(Event.Finished), Close, Check];
    assert moves[1..][1..] == [Close, Check] && moves[1..][1..][1..] == [Check] && moves[1..][1..][1..][1..] == [];
    assert t2.delivered + t2.unread == [Event.Finished];
    assert EndsOnce([Event.Finished]);
    assert Run(t3, [Check]);
    assert Run(t2, [Close, Check]);
    assert Run(t1, moves[1..]);
  }
}
