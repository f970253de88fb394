/** What interactive_file does with the commands of its feed: it executes all of them but
    those that begin with certain texts. */
module CommandExecution {
  import opened CommandFeed

  /** startswith() on one of the texts whose commands are not executed. */
  predicate Refused(texts: seq<string>, cmd: string) {
    exists i :: 0 <= i < |texts| && texts[i] <= cmd
  }

  function Executed(texts: seq<string>, cmds: seq<string>): seq<string> {
    if cmds == [] then []
    else (if Refused(texts, cmds[0]) then [] else [cmds[0]]) + Executed(texts, cmds[1..])
  }

  /** No command begins with one of the texts. */
  predicate NoneBegins(texts: seq<string>, cmds: seq<string>) {
    forall i, k :: 0 <= i < |texts| && 0 <= k < |cmds| ==> !(texts[i] <= cmds[k])
  }

  /** A reduced feed cut behind its newlines: the last piece need not end in one. */
  predicate PlainPieces(all: seq<string>) {
    forall k :: 0 <= k < |all| ==>
      PlainCommand(all[k]) || (k == |all| - 1 && all[k] != "" && '\n' !in all[k])
  }

  /** What is executed of a feed. In plain mode the commands are its reduction, cut behind
      each newline; in -j mode they are those it joins and its last one, which nothing need
      end. Exactly those that begin with one of the texts are left out. */
  ghost predicate Executes(feed: string, mode: Mode, texts: seq<string>, commands: seq<string>) {
    && NoneBegins(texts, commands)
    && (mode.Plain? ==>
          exists all :: Joined(all) == Reduce("", feed) && PlainPieces(all) && commands == Executed(texts, all)
                        && (NoneBegins(texts, all) ==> commands == all))
    && (mode.SemiNewlineNewline? ==>
          forall cmds, tail ::
            feed == Join(cmds, tail) && !HasBreak(tail) && (forall c :: c in cmds ==> JCommand(c)) ==>
            var all := cmds + if tail == "" then [] else [tail];
            commands == Executed(texts, all) && (NoneBegins(texts, all) ==> commands == all))
  }

  /** The loop of interactive_file: every command in turn but the refused ones; an empty
      rest at EOF is none. */
  method ExecuteFeed(feed: string, mode: Mode, texts: seq<string>) returns (commands: seq<string>)
    ensures commands == Executed(texts, Commands(Split(mode, "", feed)))
    ensures Executes(feed, mode, texts, commands)
    ensures mode.Plain? && texts == [] ==> Joined(commands) == Reduce("", feed)
  {
    WhatIsExecuted(feed, mode, texts);
    commands := [];
    var pos, eof := 0, false;
    assert feed[0..] == feed;
    while !eof
      invariant 0 <= pos <= |feed|
      invariant if eof then commands == Executed(texts, Commands(Split(mode, "", feed)))
                else commands + Executed(texts, Commands(Split(mode, "", feed[pos..])))
                     == Executed(texts, Commands(Split(mode, "", feed)))
      decreases !eof, |feed| - pos
    {
      var inBuf;
      inBuf, pos, eof := ReadCommand(feed, pos, mode);
      if eof && inBuf == [] {
        return;
      }
      if !eof {
        ExecutedStep(texts, commands, inBuf, Split(mode, "", feed[pos..]));
      }
      if !Refused(texts, inBuf) {
        commands := commands + [inBuf];
      }
    }
  }

  lemma WhatIsExecuted(feed: string, mode: Mode, texts: seq<string>)
    ensures Executes(feed, mode, texts, Executed(texts, Commands(Split(mode, "", feed))))
  {
    var all := Commands(Split(mode, "", feed));
    ExecutedAllIff(texts, all);
    var commands := Executed(texts, all);
    forall i, k | 0 <= i < |texts| && 0 <= k < |commands| ensures !(texts[i] <= commands[k]) {
      assert commands[k] in commands;
    }
    if mode.Plain? {
      PlainModeReduces(feed);
      JoinedCommands(Split(mode, "", feed));
      assert PlainPieces(all);
    } else {
      forall cmds, tail |
        feed == Join(cmds, tail) && !HasBreak(tail) && (forall c :: c in cmds ==> JCommand(c))
        ensures all == cmds + if tail == "" then [] else [tail]
      {
        SplitOfJoin(cmds, tail);
      }
    }
  }

  lemma JoinedCommands(r: (seq<string>, string))
    ensures Joined(Commands(r)) == Joined(r.0) + r.1
  {
    JoinedAppend(r.0, [r.1]);
    assert Joined([r.1]) == r.1 + Joined([]);
  }

  lemma {:induction false} JoinedAppend(a: seq<string>, b: seq<string>)
    ensures Joined(a + b) == Joined(a) + Joined(b)
  {
    if a == [] {
      assert a + b == b;
    } else {
      assert (a + b)[1..] == a[1..] + b;
      JoinedAppend(a[1..], b);
    }
  }

  lemma ExecutedStep(texts: seq<string>, done: seq<string>, cmd: string, r: (seq<string>, string))
    ensures done + Executed(texts, Commands(([cmd] + r.0, r.1)))
         == (if Refused(texts, cmd) then done else done + [cmd]) + Executed(texts, Commands(r))
  {
    var all := Commands(([cmd] + r.0, r.1));
    assert all == [cmd] + Commands(r);
    assert all[0] == cmd && all[1..] == Commands(r);
  }

  /** Exactly the refused commands are missing from what is executed. */
  lemma {:induction false} ExecutedAllIff(texts: seq<string>, cmds: seq<string>)
    ensures forall c :: c in Executed(texts, cmds) <==> c in cmds && !Refused(texts, c)
    ensures Executed(texts, cmds) == cmds <==> forall c :: c in cmds ==> !Refused(texts, c)
  {
    if cmds != [] {
      ExecutedAllIff(texts, cmds[1..]);
      assert cmds == [cmds[0]] + cmds[1..];
      assert cmds[0] in cmds;
    }
  }
}
