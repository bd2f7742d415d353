/** The broadcast of a discard: the server's formats and the client's parser, which
    looks at three fixed columns. */
module DiscardText {
  import opened Tiles

  function Digit(n: int): char
    requires 0 <= n <= 9
  {
    ('0' as int + n) as char
  }

  /** What broadcast_discard_mj calls a tile. */
  function TileName(m: Mj): string
    requires Playable(m)
  {
    if m.suit == TONG then [Digit(m.number)] + " TONG.\n"
    else if m.suit == TIAO then [Digit(m.number)] + " TIAO.\n"
    else if m.suit == WAN then [Digit(m.number)] + " WAN.\n"
    else
      match m.number
      case 1 => "EAST.\n"
      case 2 => "SOUTH.\n"
      case 3 => "WEST.\n"
      case 4 => "NORTH.\n"
      case 5 => "ZHONG.\n"
      case 6 => "FA.\n"
      case _ => "BAI.\n"
  }

  function Broadcast(player: nat, m: Mj): string
    requires player < 4 && Playable(m)
  {
    "(Discard) Player " + [Digit(player)] + " discarded " + TileName(m)
  }

  /** A cell of the receive buffer, which is zero behind the line. */
  function Column(line: string, i: nat): char {
    if i < |line| then line[i] else '\0'
  }

  /** The client's parser; a letter it does not know leaves the number as it was. */
  function Parse(line: string, before: Mj): Mj {
    var c := Column(line, 29);
    if 'A' <= c <= 'Z' then
      Mj(DAZI,
         match c
         case 'E' => 1
         case 'S' => 2
         case 'W' => 3
         case 'N' => 4
         case 'Z' => 5
         case 'F' => 6
         case 'B' => 7
         case _ => before.number)
    else
      Mj(if Column(line, 31) == 'W' then WAN else if Column(line, 32) == 'O' then TONG else TIAO,
         c as int - '0' as int)
  }

  /** Whatever tile is thrown by whichever player, the client reads back that tile. */
  lemma ParseReadsBroadcast(player: nat, m: Mj, before: Mj)
    requires player < 4 && Playable(m)
    ensures Parse(Broadcast(player, m), before) == m
  {
  }

  /** The line says which player it was, and which tile in words. */
  lemma BroadcastNamesPlayer(player: nat, m: Mj)
    requires player < 4 && Playable(m)
    ensures var line := Broadcast(player, m);
      |line| > 29 && line[..17] == "(Discard) Player " && line[17] == "0123"[player] && line[18..29] == " discarded "
  {
  }

  /** The words for the tiles. */
  lemma TileNames(n: int)
    ensures 1 <= n <= 9 ==>
      && TileName(Mj(TONG, n)) == ["0123456789"[n]] + " TONG.\n" && TileName(Mj(TIAO, n)) == ["0123456789"[n]] + " TIAO.\n"
      && TileName(Mj(WAN, n)) == ["0123456789"[n]] + " WAN.\n"
    ensures 1 <= n <= 7 ==>
      TileName(Mj(DAZI, n)) == ["EAST.\n", "SOUTH.\n", "WEST.\n", "NORTH.\n", "ZHONG.\n", "FA.\n", "BAI.\n"][n - 1]
  {
  }
}
