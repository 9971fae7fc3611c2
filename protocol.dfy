/** What the server sends to a client: the maze object, the player map (a
    by-value copy, with the order in which the client iterates it), or a
    text message such as the winner announcement. */
module Protocol {
  import opened Mazes
  import opened Players

  datatype ServerMessage =
    | MazeMessage(maze: Maze)
    | PlayersMessage(players: map<string, PlayerView>, order: seq<string>)
    | TextMessage(text: string)
    | OtherMessage

  /** `winMessage.startsWith("WINNER")` */
  function AnnouncesWinner(text: string): (r: bool)
    ensures r <==> "WINNER" <= text
  {
    |text| >= 6 && text[..6] == "WINNER"
  }
}
