/** A round of the server together with the client of one of its seats. */
module Game {
  import opened Snapshots
  import opened Dealing
  import opened Play
  import opened Wall
  import opened Messages
  import opened Answering
  import opened Table
  import opened Replica

  /** What of the record goes to seat q. */
  function ForSeat(talks: seq<seq<seq<Exchange>>>, q: nat): (own: seq<seq<Exchange>>)
    requires q < 4 && forall j :: 0 <= j < |talks| ==> |talks[j]| == 4
    ensures |own| == |talks| && forall j :: 0 <= j < |talks| ==> own[j] == talks[j][q]
  {
    seq(|talks|, j requires 0 <= j < |talks| => talks[j][q])
  }

  /** What the server records for seat q are the messages of the steps it makes. */
  lemma RecordedIsTalk(run: seq<Config>, talks: seq<seq<seq<Exchange>>>, q: nat)
    requires Recorded(run, talks) && q < 4
    ensures forall j :: 0 <= j < |talks| ==> |talks[j]| == 4 && Talk(run[j], run[j + 1], q, talks[j][q])
    ensures |run| == |talks| + 1
  {
    hide Talk;
    forall j | 0 <= j < |talks|
      ensures |talks[j]| == 4 && Talk(run[j], run[j + 1], q, talks[j][q])
    {
      assert AllTalk(run[j], run[j + 1], talks[j]);
    }
  }

  /** The client of seat q over what has been written to it: its hand, the messages of every
      step of a run, and those of a turn that stopped in a quiet gang. */
  method PlayClient(hand: FirstHand, talks: seq<seq<seq<Exchange>>>, heard: seq<seq<Exchange>>, halt: Halt, q: nat,
                    ghost run: seq<Config>, ghost table: Snap)
    returns (client: Seat, ghost states: seq<Client>)
    requires LegalRun(run) && Recorded(run, talks) && q < 4
    requires FreshRound(run[0].snap) && HandOf(run[0].snap.seats[q], hand)
    requires halt.Running? || Ending(run[|run| - 1], table, heard, halt)
    ensures client.Valid() && fresh(client.Repr()) && |states| == |run| > 0
    ensures forall i :: 0 <= i < |states| ==> InSync(run[i], q, states[i])
    ensures EndsTogether(run[|run| - 1], table, heard, halt, q, states[|states| - 1], client.Look())
  {
    hide Inv, Recorded, Talk, InSync, FreshRound, HandOf, Ending, StandsStill;
    RecordedIsTalk(run, talks, q);
    RunKeepsInv(run, 0);
    DealStartsInSync(run[0], q, hand);
    client := new Seat();
    client.GetDecks(hand.tiles, hand.numbers);
    states := client.FollowRun(ForSeat(talks, q), run, q);
    if halt.QuietGang? {
      ghost var last := run[|run| - 1];
      StallEnds(last, table, heard);
      client.FollowGang(heard[q], last, table, last.phase.seat, q, heard);
    }
  }

  /** How the round ended, and where the client is that stood at x in its last state. */
  ghost predicate EndsTogether(c: Config, t: Snap, heard: seq<seq<Exchange>>, halt: Halt, q: nat, x: Client, y: Client) {
    && (halt.Running? || Ending(c, t, heard, halt))
    && if halt.QuietGang? && c.phase.ToDiscard? then StandsStill(t, c.phase.seat, q, y) else y == x
  }

  lemma StallEnds(c: Config, t: Snap, heard: seq<seq<Exchange>>)
    requires Ending(c, t, heard, QuietGang)
    ensures c.phase.ToDiscard? && |heard| == 4 && Stall(c, t, c.phase.seat, heard)
  {
  }

  /** A round as the server plays it, and a client that is given what the server writes to
      seat q: whatever the players answer and wherever the round ends, the client's copy is
      the server's seat in every state of the round. If it stops behind a quiet gang the
      copies still agree, but no client is about to send what the server waits for. */
  method PlayWithClient(server: Server, start: nat, rand: seq<int>, replies: Answers, q: nat)
    returns (halt: Halt, client: Seat, ghost table: Snap, ghost states: seq<Client>)
    requires server.Built() && start < 4 && |rand| == SIZE && q < 4
    modifies server, server.wall, server.Cells()
    ensures server.Logged() && |states| == |server.history| > 0 && server.BegunWith(server.history[0], start, rand)
    ensures Complete(server.history, table, server.heard, halt, replies)
    ensures client.Valid() && forall i :: 0 <= i < |states| ==> InSync(server.history[i], q, states[i])
    ensures EndsTogether(server.history[|server.history| - 1], table, server.heard, halt, q, states[|states| - 1], client.Look())
  {
    hide Inv, InSync, FreshRound, HandOf, Ending, EndsTogether, EndsAt, LegalRun, Recorded, Obeyed, Stops, Shuffled, DealtFrom;
    hide Server.Framed, Server.Seats, Server.Cells;
    halt := server.PlayRound(start, rand, replies);
    table := server.Look();
    client, states := PlayClient(server.hands[q], server.talks, server.heard, halt, q, server.history, table);
  }
}
