/** interactive_file with the two texts it refuses. */
module InteractiveFile {
  import opened CommandFeed
  import opened CommandExecution

  /** The two commands the program refuses. */
  const REFUSED: seq<string> :=
    ["REVOKE ALL ON pg_largeobject FROM PUBLIC;",
     "REVOKE CREATE,TEMPORARY ON DATABASE template1 FROM public;"]

  /** interactive_file */
  method SplitFeed(feed: string, mode: Mode) returns (commands: seq<string>)
    ensures Executes(feed, mode, REFUSED, commands)
  {
    commands := ExecuteFeed(feed, mode, REFUSED);
  }
}
