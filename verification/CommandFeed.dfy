/** The command splitter of interactive_file, in its two modes, with its laws. */
module CommandFeed {

  /** UseSemiNewlineNewline, or newline unless preceded by backslash. */
  datatype Mode = SemiNewlineNewline | Plain

  predicate EndsWithSemiNewline(buf: string) {
    |buf| > 1 && buf[|buf| - 1] == '\n' && buf[|buf| - 2] == ';'
  }

  predicate EndsWithBackslash(buf: string) {
    |buf| > 0 && buf[|buf| - 1] == '\\'
  }

  /** This character ends the command in buf. */
  predicate Ends(mode: Mode, buf: string, c: char) {
    c == '\n' && if mode.Plain? then !EndsWithBackslash(buf) else EndsWithSemiNewline(buf)
  }

  /** buf after a character that does not end the command. */
  function Push(mode: Mode, buf: string, c: char): string {
    if mode.Plain? && c == '\n' && EndsWithBackslash(buf) then buf[..|buf| - 1] else buf + [c]
  }

  /** The command that ends here: the newline is kept in plain mode and dropped in -j mode. */
  function Finished(mode: Mode, buf: string): string {
    if mode.Plain? then buf + "\n" else buf
  }

  /** The terminated commands, and what is left in the buffer at EOF. */
  function Split(mode: Mode, buf: string, feed: string): (r: (seq<string>, string))
    decreases |feed|
  {
    if feed == [] then ([], buf)
    else if Ends(mode, buf, feed[0]) then
      var (cmds, tail) := Split(mode, "", feed[1..]);
      ([Finished(mode, buf)] + cmds, tail)
    else Split(mode, Push(mode, buf, feed[0]), feed[1..])
  }

  /** An empty rest at EOF is not a command. */
  function Commands(r: (seq<string>, string)): seq<string> {
    if r.1 == [] then r.0 else r.0 + [r.1]
  }

  lemma OneCharacter(mode: Mode, buf: string, feed: string, pos: nat)
    requires pos < |feed|
    ensures Split(mode, buf, feed[pos..]) ==
      if Ends(mode, buf, feed[pos]) then
        var (cmds, tail) := Split(mode, "", feed[pos + 1..]); ([Finished(mode, buf)] + cmds, tail)
      else Split(mode, Push(mode, buf, feed[pos]), feed[pos + 1..])
  {
    assert feed[pos..][1..] == feed[pos + 1..];
  }

  /** The inner loop of interactive_file: one command off the feed, or EOF. */
  method ReadCommand(feed: string, start: nat, mode: Mode) returns (inBuf: string, pos: nat, eof: bool)
    requires start <= |feed|
    ensures start <= pos <= |feed|
    ensures eof ==> Split(mode, "", feed[start..]) == ([], inBuf)
    ensures !eof ==> start < pos
    ensures var (cmds, tail) := Split(mode, "", feed[pos..]);
            !eof ==> Split(mode, "", feed[start..]) == ([inBuf] + cmds, tail)
  {
    inBuf, pos := "", start;
    while pos < |feed|
      invariant start <= pos <= |feed|
      invariant Split(mode, inBuf, feed[pos..]) == Split(mode, "", feed[start..])
    {
      var c := feed[pos];
      OneCharacter(mode, inBuf, feed, pos);
      pos := pos + 1;
      if c == '\n' {
        if mode.SemiNewlineNewline? {
          if |inBuf| > 1 && inBuf[|inBuf| - 1] == '\n' && inBuf[|inBuf| - 2] == ';' {
            return inBuf, pos, false;
          }
        } else if |inBuf| > 0 && inBuf[|inBuf| - 1] == '\\' {
          inBuf := inBuf[..|inBuf| - 1];
          continue;
        } else {
          return inBuf + "\n", pos, false;
        }
      }
      inBuf := inBuf + [c];
    }
    eof := true;
  }

  // ---------- Semicolon-newline-newline mode ----------

  /** ";\n\n" occurs in s. */
  predicate HasBreak(s: string) {
    exists i :: 0 <= i < |s| - 2 && s[i] == ';' && s[i + 1] == '\n' && s[i + 2] == '\n'
  }

  /** A command as -j mode reads it. */
  predicate JCommand(s: string) {
    EndsWithSemiNewline(s) && !HasBreak(s)
  }

  /** The feed that holds these commands: each followed by the newline that ends it. */
  function Join(cmds: seq<string>, tail: string): string {
    if cmds == [] then tail else cmds[0] + "\n" + Join(cmds[1..], tail)
  }

  /** -j mode loses nothing but the newline behind each command, and cuts at every break. */
  lemma {:induction false} SemiSplit(buf: string, feed: string)
    requires !HasBreak(buf)
    ensures var (cmds, tail) := Split(SemiNewlineNewline, buf, feed);
            && Join(cmds, tail) == buf + feed
            && !HasBreak(tail) && forall c :: c in cmds ==> JCommand(c)
    decreases |feed|
  {
    if feed == [] {
      assert buf + feed == buf;
    } else if Ends(SemiNewlineNewline, buf, feed[0]) {
      SemiSplit("", feed[1..]);
      assert buf + feed == buf + "\n" + feed[1..];
    } else {
      assert !HasBreak(buf + [feed[0]]);
      SemiSplit(buf + [feed[0]], feed[1..]);
      assert buf + feed == buf + [feed[0]] + feed[1..];
    }
  }

  lemma EndIsBreak(buf: string, text: string)
    requires text != []
    ensures Ends(SemiNewlineNewline, buf, text[0]) ==> HasBreak(buf + text)
  {
    if Ends(SemiNewlineNewline, buf, text[0]) {
      var s := buf + text;
      assert s[|buf| - 2] == ';' && s[|buf| - 1] == '\n' && s[|buf|] == '\n';
    }
  }

  /** Text without a break is read whole into the buffer. */
  lemma {:induction false} SemiReads(buf: string, text: string, rest: string)
    requires !HasBreak(buf + text)
    ensures Split(SemiNewlineNewline, buf, text + rest) == Split(SemiNewlineNewline, buf + text, rest)
    decreases |text|
  {
    if text == [] {
      assert buf + text == buf && text + rest == rest;
    } else {
      EndIsBreak(buf, text);
      assert buf + text == buf + [text[0]] + text[1..];
      assert (text + rest)[1..] == text[1..] + rest;
      SemiReads(buf + [text[0]], text[1..], rest);
    }
  }

  /** Splitting is a bijection: joining commands and splitting gives them back. */
  lemma {:induction false} SplitOfJoin(cmds: seq<string>, tail: string)
    requires !HasBreak(tail) && forall c :: c in cmds ==> JCommand(c)
    ensures Split(SemiNewlineNewline, "", Join(cmds, tail)) == (cmds, tail)
    decreases |cmds|
  {
    if cmds == [] {
      assert "" + tail == tail && tail + "" == tail;
      SemiReads("", tail, "");
    } else {
      var cmd, rest := cmds[0], Join(cmds[1..], tail);
      assert cmd in cmds;
      CutAtBreak(cmd, rest);
      SplitOfJoin(cmds[1..], tail);
      assert cmds == [cmd] + cmds[1..];
    }
  }

  lemma CutAtBreak(cmd: string, rest: string)
    requires JCommand(cmd)
    ensures var (cmds, tail) := Split(SemiNewlineNewline, "", rest);
            Split(SemiNewlineNewline, "", cmd + "\n" + rest) == ([cmd] + cmds, tail)
  {
    assert "" + cmd == cmd;
    SemiReads("", cmd, "\n" + rest);
    assert cmd + "\n" + rest == cmd + ("\n" + rest);
    assert ("\n" + rest)[1..] == rest;
  }

  // ---------- Plain mode ----------

  /** A newline cancels a backslash on top of the stack; anything else is pushed. */
  function Reduce(stack: string, feed: string): string
    decreases |feed|
  {
    if feed == [] then stack else Reduce(Push(Plain, stack, feed[0]), feed[1..])
  }

  function Joined(cmds: seq<string>): string {
    if cmds == [] then "" else cmds[0] + Joined(cmds[1..])
  }

  predicate HasContinuation(s: string) {
    exists i :: 0 <= i < |s| - 1 && s[i] == '\\' && s[i + 1] == '\n'
  }

  /** A plain command: one newline, its last character, and no backslash before it. */
  predicate PlainCommand(s: string) {
    && |s| > 0 && s[|s| - 1] == '\n' && '\n' !in s[..|s| - 1]
    && !EndsWithBackslash(s[..|s| - 1])
  }

  /** Plain mode is the stack reduction of the feed, cut behind each newline that is left.
      done is what earlier commands left on the stack below buf. */
  lemma {:induction false} PlainSplit(done: string, buf: string, feed: string)
    requires !EndsWithBackslash(done) && '\n' !in buf
    ensures var (cmds, tail) := Split(Plain, buf, feed);
            && done + Joined(cmds) + tail == Reduce(done + buf, feed)
            && '\n' !in tail && forall c :: c in cmds ==> PlainCommand(c)
    decreases |feed|
  {
    if feed == [] {
      assert done + "" + buf == done + buf;
    } else if Ends(Plain, buf, feed[0]) {
      var stack := done + (buf + "\n");
      PlainEnds(done, buf, feed);
      PlainSplit(stack, "", feed[1..]);
      assert stack + "" == stack;
      var (cmds, tail) := Split(Plain, "", feed[1..]);
      JoinedFirst(done, buf + "\n", cmds, tail);
    } else {
      var buf' := Push(Plain, buf, feed[0]);
      PlainPush(done, buf, feed[0]);
      PlainSplit(done, buf', feed[1..]);
    }
  }

  lemma PlainPush(done: string, buf: string, c: char)
    requires !EndsWithBackslash(done) && !Ends(Plain, buf, c)
    ensures Push(Plain, done + buf, c) == done + Push(Plain, buf, c)
  {
  }

  /** The newline that ends a command stays on the stack. */
  lemma PlainEnds(done: string, buf: string, feed: string)
    requires feed != [] && Ends(Plain, buf, feed[0]) && !EndsWithBackslash(done) && '\n' !in buf
    ensures PlainCommand(buf + "\n")
    ensures Reduce(done + buf, feed) == Reduce(done + (buf + "\n"), feed[1..])
  {
    var cmd := buf + "\n";
    assert cmd[..|cmd| - 1] == buf;
    assert Push(Plain, done + buf, '\n') == done + buf + "\n" == done + cmd;
  }

  lemma JoinedFirst(done: string, cmd: string, cmds: seq<string>, tail: string)
    ensures done + Joined([cmd] + cmds) + tail == done + cmd + Joined(cmds) + tail
  {
    assert ([cmd] + cmds)[1..] == cmds;
    var rest := Joined(cmds);
    assert done + (cmd + rest) == done + cmd + rest;
  }

  lemma {:induction false} ReduceAppend(stack: string, a: string, b: string)
    ensures Reduce(stack, a + b) == Reduce(Reduce(stack, a), b)
    decreases |a|
  {
    if a == [] {
      assert a + b == b;
    } else {
      assert (a + b)[1..] == a[1..] + b;
      ReduceAppend(Push(Plain, stack, a[0]), a[1..], b);
    }
  }

  /** Taking out a backslash-newline pair anywhere does not change the result. */
  lemma ReduceCancels(stack: string, u: string, v: string)
    ensures Reduce(stack, u + "\\\n" + v) == Reduce(stack, u + v)
  {
    var top := Reduce(stack, u);
    ReduceAppend(stack, u + "\\\n", v);
    ReduceAppend(stack, u, "\\\n");
    ReduceAppend(stack, u, v);
    assert "\\\n"[1..] == "\n" && "\n"[1..] == "";
    var pushed := top + ['\\'];
    assert Push(Plain, top, '\\') == pushed && pushed[..|pushed| - 1] == top;
    assert Reduce(pushed, "\n") == Reduce(Push(Plain, pushed, '\n'), "");
  }

  /** The result has no pair left, and text without a pair is its own result: Reduce is
      the unique normal form under taking out pairs. */
  lemma {:induction false} ReduceIsNormal(stack: string, feed: string)
    requires !HasContinuation(stack)
    ensures !HasContinuation(Reduce(stack, feed))
    ensures !HasContinuation(stack + feed) ==> Reduce(stack, feed) == stack + feed
    decreases |feed|
  {
    if feed == [] {
      assert stack + feed == stack;
    } else {
      var stack' := Push(Plain, stack, feed[0]);
      assert !HasContinuation(stack');
      ReduceIsNormal(stack', feed[1..]);
      if !HasContinuation(stack + feed) {
        var s := stack + feed;
        assert |stack| > 0 ==> s[|stack| - 1] == stack[|stack| - 1] && s[|stack|] == feed[0];
        assert stack' == stack + [feed[0]];
        assert stack + feed == stack' + feed[1..];
      }
    }
  }

  function CountOf(s: string, c: char): nat {
    if s == [] then 0 else CountOf(s[..|s| - 1], c) + (if s[|s| - 1] == c then 1 else 0)
  }

  /** The characters other than newline and backslash, in order. */
  function Others(s: string): string {
    if s == [] then [] else Others(s[..|s| - 1]) + (if s[|s| - 1] in {'\n', '\\'} then [] else [s[|s| - 1]])
  }

  /** Discarded backslashes equal discarded newlines; nothing else is lost or moved. */
  lemma {:induction false} ReduceDiscardsPairs(stack: string, feed: string)
    ensures var r := Reduce(stack, feed);
            && CountOf(stack + feed, '\\') - CountOf(r, '\\') == CountOf(stack + feed, '\n') - CountOf(r, '\n') >= 0
            && Others(r) == Others(stack + feed)
    decreases |feed|
  {
    if feed == [] {
      assert stack + feed == stack;
    } else {
      var c, stack' := feed[0], Push(Plain, stack, feed[0]);
      ReduceDiscardsPairs(stack', feed[1..]);
      assert stack + feed == stack + [c] + feed[1..];
      if stack' == stack + [c] {
      } else {
        var rest := feed[1..];
        assert stack == stack' + ['\\'];
        PairCounts(stack', rest);
        assert stack' + "\\\n" + rest == stack + feed;
      }
    }
  }

  lemma {:induction false} PairCounts(u: string, v: string)
    ensures var w := u + "\\\n" + v;
            && CountOf(w, '\\') == CountOf(u + v, '\\') + 1
            && CountOf(w, '\n') == CountOf(u + v, '\n') + 1
            && Others(w) == Others(u + v)
    decreases |v|
  {
    var w := u + "\\\n" + v;
    if v == [] {
      assert u + v == u;
      assert w[..|w| - 1] == u + "\\" && (u + "\\")[..|u|] == u;
    } else {
      var v' := v[..|v| - 1];
      PairCounts(u, v');
      assert w[..|w| - 1] == u + "\\\n" + v';
      assert (u + v)[..|u + v| - 1] == u + v';
    }
  }

  /** Plain mode on a whole feed: the commands and the tail together are its normal form;
      as many backslashes as newlines are gone and everything else is there in order. */
  lemma PlainModeReduces(feed: string)
    ensures var (cmds, tail) := Split(Plain, "", feed);
            var out := Joined(cmds) + tail;
            && out == Reduce("", feed) && !HasContinuation(out)
            && (forall c :: c in cmds ==> PlainCommand(c)) && '\n' !in tail
            && CountOf(feed, '\\') - CountOf(out, '\\') == CountOf(feed, '\n') - CountOf(out, '\n') >= 0
            && Others(out) == Others(feed)
  {
    PlainSplit("", "", feed);
    assert "" + "" == "" && "" + feed == feed;
    var (cmds, tail) := Split(Plain, "", feed);
    assert "" + Joined(cmds) + tail == Joined(cmds) + tail;
    ReduceIsNormal("", feed);
    ReduceDiscardsPairs("", feed);
  }
}
