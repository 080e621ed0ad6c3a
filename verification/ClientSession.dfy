/** The client's session: a dump for every signal, until a signal or a transfer fails. */
module ClientSession {
  import opened Bytes
  import opened Wire
  import opened FileTree
  import opened Reception
  import opened Client
  import opened CutStream
  import opened Transfer

  /** The connection after `receiveAll` was asked for `n` bytes. */
  function Received(o: Link, n: nat): Link {
    if n <= |o.input| then o.(input := o.input[n..])
    else if o.polite then Closed(o)
    else o.(input := [])
  }

  /**
    `InfoDumping::receiveAll`: bytes that arrived before a failure stay in the buffer. As in
    `sendAll`, only an end that shows as a transfer of 0 bytes is reported, and closes the socket.
   */
  method ReceiveAll(n: nat, dest: array<Byte>, s: Socket) returns (code: nat)
    requires n <= dest.Length && n < SOCKET_ERROR
    modifies dest, s
    ensures var m := Min(n, |old(s.input)|); dest[..] == old(s.input)[..m] + old(dest[..])[m..]
    ensures s.View() == Received(old(s.View()), n)
    ensures code == if |old(s.input)| < n && old(s.polite) then 1 else 0
  {
    hide Received, Sum32, Filled;
    var total: nat := 0;
    ghost var o, was, reach: nat := s.View(), dest[..], 0;
    NothingYet(dest, s);
    while total < n
      invariant reach <= n && reach <= |o.input| && Filled(dest, s, o, was, reach)
      invariant total == reach || (reach == |o.input| < n && !o.polite && (total < reach || total == SOCKET_ERROR))
      decreases n - reach, if total <= n then total + 1 else 0
    {
      var count;
      count, reach := ReceiveSome(n, total, dest, s, o, was, reach);
      if count == 0 {
        AllFilled(dest, s, o, was, reach, n);
        s.Close();
        return 1;
      }
      Counting(total, count);
      total := Sum32(total, count);
    }
    AllFilled(dest, s, o, was, reach, n);
    return 0;
  }

  /** The first `reach` bytes of the input are in the buffer, and the rest of the input is still to come. */
  ghost predicate Filled(dest: array<Byte>, s: Socket, o: Link, was: seq<Byte>, reach: nat)
    reads dest, s
  {
    && reach <= |o.input| && reach <= |was| && s.View() == o.(input := o.input[reach..])
    && dest[..] == o.input[..reach] + was[reach..]
  }

  lemma NothingYet(dest: array<Byte>, s: Socket)
    ensures Filled(dest, s, s.View(), dest[..], 0)
  {
    assert dest[..] == s.View().input[..0] + dest[..][0..];
  }

  lemma AllFilled(dest: array<Byte>, s: Socket, o: Link, was: seq<Byte>, reach: nat, n: nat)
    requires Filled(dest, s, o, was, reach) && reach == Min(n, |o.input|)
    ensures dest[..] == o.input[..reach] + was[reach..]
    ensures Received(o, n) == if reach < n && o.polite then Closed(s.View()) else s.View()
  {
  }

  /** The next transfer, into the buffer from `total` on; `reach` counts the bytes that are there. */
  method ReceiveSome(n: nat, total: nat, dest: array<Byte>, s: Socket, ghost o: Link, ghost was: seq<Byte>,
                     ghost reach: nat)
    returns (count: nat, ghost reached: nat)
    requires total < n <= dest.Length && Filled(dest, s, o, was, reach) && (reach < |o.input| ==> reach == total)
    modifies dest, s`input
    ensures Filled(dest, s, o, was, reached)
    ensures reach < |o.input| ==> 0 < count <= n - total && reached == reach + count
    ensures reach == |o.input| ==> count == (if o.polite then 0 else SOCKET_ERROR) && reached == reach
  {
    var data;
    count, data := s.Receive(n - total);
    reached := reach;
    if data != [] {
      forall i | 0 <= i < |data| {
        dest[total + i] := data[i];
      }
      reached := reach + count;
    }
  }

  /** No session has more rounds than whole signals, and one for a signal that breaks off. */
  function MostRounds(input: seq<Byte>): nat {
    if input == [] then 0 else |input| / BOX + 1
  }

  ghost predicate DumpsReady(dumps: seq<Node>, input: seq<Byte>) {
    MostRounds(input) < |dumps| && forall n :: n in dumps ==> n.DirNode? && Sendable(n)
  }

  /** What is in the zeroed message buffer after `receiveAll`, whether it succeeded or not. */
  function Heard(input: seq<Byte>): (msg: seq<Byte>)
    ensures |msg| == BOX
  {
    Padded(input[..Min(BOX, |input|)], BOX)
  }

  lemma SilenceIsNoSignal()
    ensures CString(Heard([])) != DUMP
  {
    assert Heard([])[0] == 0;
  }

  /** The connection after the session, and the number of dumps reported as sent. */
  function Rounds(o: Link, dumps: seq<Node>): (Link, nat)
    requires DumpsReady(dumps, o.input)
    decreases |o.input|
  {
    SilenceIsNoSignal();
    var o1 := Received(o, BOX);
    if CString(Heard(o.input)) != DUMP then (Closed(o1), 0)
    else
      var s := Stream(dumps[0]);
      var o2 := Performed(o1, s);
      if !Reported(o1, s) then (Closed(o2), 0)
      else
        var (last, more) := Rounds(o2, dumps[1..]);
        (last, more + 1)
  }

  /** One round of the session. */
  lemma RoundStep(o: Link, dumps: seq<Node>)
    requires DumpsReady(dumps, o.input)
    ensures dumps != [] && dumps[0].DirNode? && Sendable(dumps[0])
    ensures var (o1, s) := (Received(o, BOX), Stream(dumps[0]));
            var o2 := Performed(o1, s);
            if CString(Heard(o.input)) != DUMP then Rounds(o, dumps) == (Closed(o1), 0)
            else if !Reported(o1, s) then Rounds(o, dumps) == (Closed(o2), 0)
            else
              && DumpsReady(dumps[1..], o2.input) && |o2.input| < |o.input|
              && Rounds(o, dumps) == (Rounds(o2, dumps[1..]).0, Rounds(o2, dumps[1..]).1 + 1)
  {
    hide Stream, CString, Heard, Reported, Sendable;
    assert dumps[0] in dumps;
    SilenceIsNoSignal();
    InputOfWalk(Received(o, BOX), dumps[0]);
  }

  /** The session loop of `_tmain`; `dumps` are the directories that the dumping of successive rounds leaves behind. */
  method SessionLoop(w: Walker, home: seq<Byte>, dumps: seq<Node>, s: Socket) returns (rounds: nat)
    requires DumpsReady(dumps, s.input)
    modifies w, s
    ensures (s.View(), rounds) == Rounds(old(s.View()), dumps)
  {
    hide Stream, Sendable, Performed, Reported, Rounds, Heard, Received, CString, DumpsReady, Closed;
    var msg := new Byte[BOX](_ => 0);
    rounds := 0;
    ghost var left := dumps;
    assert dumps[0..] == dumps;
    while true
      invariant msg[..] == Zeros(BOX) && rounds <= |dumps| && left == dumps[rounds..] && DumpsReady(left, s.input)
      invariant var (last, more) := Rounds(s.View(), left);
                Rounds(old(s.View()), dumps) == (last, rounds + more)
      decreases |s.input|
    {
      ghost var o := s.View();
      RoundStep(o, left);
      var received := ReceiveAll(BOX, msg, s);
      ZeroesRemain(msg[..], o.input);
      if CString(msg[..]) != DUMP {
        break;
      }
      var n := dumps[rounds];
      var failed := w.SendDir(home + [BACKSLASH] + n.name, n, s);
      if failed == 1 {
        break;
      }
      forall i | 0 <= i < BOX {
        msg[i] := 0;
      }
      left := left[1..];
      rounds := rounds + 1;
    }
    s.Close();
  }

  lemma ZeroesRemain(msg: seq<Byte>, input: seq<Byte>)
    requires var m := Min(BOX, |input|); msg == input[..m] + Zeros(BOX)[m..]
    ensures msg == Heard(input)
  {
    var m := Min(BOX, |input|);
    assert Zeros(BOX)[m..] == Zeros(BOX - m);
  }

  /** A walk leaves alone what will still arrive, or closes the socket. */
  lemma InputOfWalk(o: Link, n: Node)
    requires Sendable(n)
    ensures Performed(o, Stream(n)).input == o.input || Performed(o, Stream(n)).input == []
  {
    hide Stream;
  }

  /** A signal that breaks off is taken for a whole one exactly when the four letters of "dump" have arrived. */
  lemma BrokenSignal(k: nat)
    requires k <= BOX
    ensures CString(Heard(MessageBox(DUMP)[..k])) == DUMP <==> 4 <= k
  {
    var part, msg := MessageBox(DUMP)[..k], Heard(MessageBox(DUMP)[..k]);
    assert MessageBox(DUMP) == DUMP + Zeros(BOX - 4);
    if 4 <= k {
      assert msg == DUMP + Zeros(BOX - 4);
      CStringOfTerminated(DUMP, BOX - 4);
    } else {
      assert msg == DUMP[..k] + Zeros(BOX - k);
      CStringOfTerminated(DUMP[..k], BOX - k);
    }
  }

  function Snapshots(dumps: seq<Node>): (trees: seq<Tree>)
    ensures |trees| == |dumps|
  {
    if dumps == [] then [] else [Snapshot(dumps[0])] + Snapshots(dumps[1..])
  }

  /** What a session may send: the streams of the rounds it reports, and that of the round it fails in. */
  function Intended(dumps: seq<Node>, r: nat): seq<Tree>
    requires r < |dumps|
  {
    Snapshots(dumps[..r]) + [Announced(dumps[r])]
  }

  /**
    `out` goes out in a session of `r` reported rounds: a proper prefix of these streams, which fits the connection.
   */
  ghost predicate Outgoing(o: Link, dumps: seq<Node>, last: Link, r: nat, out: seq<Byte>) {
    && r < |dumps| && r <= MostRounds(o.input) && (forall n :: n in dumps[..r] ==> Walkable(n))
    && (forall t :: t in Intended(dumps, r) ==> WellFormed(t))
    && last.sent == o.sent + out && |out| <= o.room
    && out <= EncodeAll(Intended(dumps, r)) && |out| < |EncodeAll(Intended(dumps, r))|
  }

  /** Nothing goes out after a break. */
  lemma {:induction false} RoundsSend(o: Link, dumps: seq<Node>) returns (out: seq<Byte>)
    requires DumpsReady(dumps, o.input)
    ensures Rounds(o, dumps).1 < |dumps| && Outgoing(o, dumps, Rounds(o, dumps).0, Rounds(o, dumps).1, out)
    decreases |o.input|
  {
    hide Stream, Encode, Walkable, Announced, Heard, WellFormed, Sendable, Outgoing;
    var n, o1, last := dumps[0], Received(o, BOX), Rounds(o, dumps).0;
    assert n in dumps;
    StreamIsAnnounced(n);
    StreamIsEncode(n);
    SilenceIsNoSignal();
    if CString(Heard(o.input)) != DUMP {
      out := [];
      FailedRound(o, dumps, last, out);
    } else {
      var o2 := Performed(o1, Stream(n));
      var first := Stream(n).bytes[..Min(|Stream(n).bytes|, o1.room)];
      SentBytes(o1, n);
      if !Reported(o1, Stream(n)) {
        out := first;
        FailedRound(o, dumps, last, out);
      } else {
        InputOfWalk(o1, n);
        var later := RoundsSend(o2, dumps[1..]);
        out := first + later;
        ReportedRound(o, o2, dumps, last, Rounds(o, dumps).1, first, later);
      }
    }
  }

  lemma FailedRound(o: Link, dumps: seq<Node>, last: Link, out: seq<Byte>)
    requires dumps != [] && WellFormed(Announced(dumps[0])) && last.sent == o.sent + out && |out| <= o.room
    requires out <= Encode(Announced(dumps[0])) && |out| < |Encode(Announced(dumps[0]))|
    ensures Outgoing(o, dumps, last, 0, out)
  {
    assert dumps[..0] == [] && Intended(dumps, 0) == [Announced(dumps[0])];
    assert Encode(Announced(dumps[0])) + [] == Encode(Announced(dumps[0]));
  }

  lemma ReportedRound(o: Link, o2: Link, dumps: seq<Node>, last: Link, r: nat, first: seq<Byte>, later: seq<Byte>)
    requires 0 < r <= |dumps| && Walkable(dumps[0]) && WellFormed(Snapshot(dumps[0]))
    requires Outgoing(o2, dumps[1..], last, r - 1, later)
    requires MostRounds(o2.input) < MostRounds(o.input)
    requires o2.sent == o.sent + first && |first| <= o.room && o2.room + |first| <= o.room
    requires first == Encode(Snapshot(dumps[0])) || (first <= Encode(Snapshot(dumps[0])) && o2.room == 0)
    ensures Outgoing(o, dumps, last, r, first + later)
  {
    hide Encode, Walkable, Announced, WellFormed, Snapshot;
    var all, rest := Intended(dumps, r), Intended(dumps[1..], r - 1);
    assert dumps[..r] == [dumps[0]] + dumps[1..][..r - 1] && dumps[1..][r - 1] == dumps[r];
    assert all == [Snapshot(dumps[0])] + rest && all[1..] == rest;
    Assoc(o.sent, first, later);
  }

  // Both ends together.

  lemma {:induction false} SnapshotsInOrder(dumps: seq<Node>)
    ensures forall i :: 0 <= i < |dumps| ==> Snapshots(dumps)[i] == Snapshot(dumps[i])
  {
    if dumps != [] {
      SnapshotsInOrder(dumps[1..]);
    }
  }

  /** There is room on the server's disk for every directory the client will send, each under a name of its own. */
  ghost predicate NewNames(fs: Fs, cwd: Path, client: Name, dumps: seq<Node>) {
    && HomeUsable(fs, cwd, client)
    && (forall n :: n in dumps ==> Vacant(fs, cwd + [client] + [n.name]))
    && forall i, j :: 0 <= i < j < |dumps| ==> dumps[i].name != dumps[j].name
  }

  lemma RoomForRounds(fs: Fs, cwd: Path, client: Name, dumps: seq<Node>, r: nat)
    requires NewNames(fs, cwd, client, dumps) && r < |dumps| && forall n :: n in dumps ==> n.DirNode?
    requires forall t :: t in Intended(dumps, r) ==> WellFormed(t)
    ensures Dumps(fs, cwd, client, Intended(dumps, r))
  {
    hide Vacant;
    var all := Intended(dumps, r);
    SnapshotsInOrder(dumps[..r]);
    forall i | 0 <= i < |all| ensures all[i].name == dumps[i].name && all[i].Dir? {
      assert dumps[i] in dumps;
    }
    forall t | t in all ensures t.Dir? && Vacant(fs, cwd + [client] + [t.name]) {
      var i :| 0 <= i < |all| && all[i] == t;
      assert dumps[i] in dumps;
    }
  }

  lemma {:induction false} FrontIsShorter(dumps: seq<Tree>, i: nat, j: nat)
    requires i <= j <= |dumps| && forall t :: t in dumps ==> WellFormed(t)
    ensures |EncodeAll(dumps[..i])| <= |EncodeAll(dumps[..j])|
    ensures i < j ==> |EncodeAll(dumps[..i])| + |Encode(dumps[i])| <= |EncodeAll(dumps[..j])|
    decreases |dumps|
  {
    hide Encode;
    if i > 0 {
      assert dumps[..i][1..] == dumps[1..][..i - 1] && dumps[..j][1..] == dumps[1..][..j - 1];
      FrontIsShorter(dumps[1..], i - 1, j - 1);
    }
  }

  /**
    A whole session, whichever signals reach the client, whatever its walks meet, wherever and
    however the connection breaks, and whichever prefix `x` of what was sent arrives. The server
    completes `done` rounds, never more than the client reports, and exactly as many when the
    streams of all reported rounds arrived; of the next one it holds a pre-order truncation.
   */
  lemma SessionOutcome(o: Link, x: seq<Byte>, dumps: seq<Node>, fs: Fs, cwd: Path, client: Name)
    returns (done: nat, m: nat)
    requires DumpsReady(dumps, o.input) && NewNames(fs, cwd, client, dumps)
    requires o.sent == [] && x <= Rounds(o, dumps).0.sent
    ensures var r := Rounds(o, dumps).1;
            && r < |dumps| && (forall t :: t in Intended(dumps, r) ==> WellFormed(t))
            && var all := Intended(dumps, r);
               var (c, rounds) := RecvRounds(Conn(x, false, fs), cwd, client);
               done <= r && rounds == done + 1
               && var home, before := cwd + [client], InstallDumps(fs, cwd, client, all[..done]);
               && (done == r <==> |EncodeAll(Snapshots(dumps[..r]))| <= |x|)
               && var cut, es := |x| - |EncodeAll(all[..done])|, Layout(all[done], home, 0);
                  && 0 <= cut < |Encode(all[done])|
                  && c.fs == Replay(if cut < 2 * BOX then before else before[home := Folder], es, cut)
                  && PreorderTruncation(es, cut, m, c.fs)
  {
    hide Rounds, RecvTree, Encode, InstallDumps, Layout, Replay, PreorderTruncation, Dumps, NewNames, HomeUsable,
         Vacant;
    var out := RoundsSend(o, dumps);
    var r := Rounds(o, dumps).1;
    var all := Intended(dumps, r);
    assert [] + out == out;
    RoomForRounds(fs, cwd, client, dumps, r);
    assert x <= EncodeAll(all);
    done, m := CutSession(x, all, fs, cwd, client);
    SnapshotsInOrder(dumps[..r]);
    assert all[..r] == Snapshots(dumps[..r]);
    if done < r {
      FrontIsShorter(all, done, r);
    }
  }
}
