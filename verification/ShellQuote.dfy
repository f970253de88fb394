/** The shell quoter, and the quoting rules of the POSIX Shell Command Language, sections
    2.2.2 and 2.2.3, that undo it. */
module ShellQuote {
  import opened Sequences

  /** The characters the quoter leaves unquoted. */
  predicate SafeChar(c: char) {
    'a' <= c <= 'z' || 'A' <= c <= 'Z' || '0' <= c <= '9' || c in {'-', '_', '.', '/', ':'}
  }

  predicate AllSafe(s: string) {
    forall c :: c in s ==> SafeChar(c)
  }

  predicate LineBreak(c: char) {
    c == '\n' || c == '\r'
  }

  /** What the loop of the quoter appends for one character. */
  function QuotedChar(c: char): string {
    if LineBreak(c) then "" else if c == '\'' then "'\"'\"'" else [c]
  }

  function QuotedBody(s: string): string {
    if s == [] then "" else QuotedBody(s[..|s| - 1]) + QuotedChar(s[|s| - 1])
  }

  function Quote(s: string): string {
    if s != [] && AllSafe(s) then s else "'" + QuotedBody(s) + "'"
  }

  function WithoutLineBreaks(s: string): string {
    if s == [] then "" else WithoutLineBreaks(s[..|s| - 1]) + (if s[|s| - 1] in {'\n', '\r'} then "" else [s[|s| - 1]])
  }

  predicate HasLineBreak(s: string) {
    exists c :: c in s && LineBreak(c)
  }

  lemma BodyStep(s: string, p: nat)
    requires p < |s|
    ensures QuotedBody(s[..p + 1]) == QuotedBody(s[..p]) + QuotedChar(s[p])
    ensures HasLineBreak(s[..p + 1]) <==> HasLineBreak(s[..p]) || LineBreak(s[p])
  {
    var t := s[..p + 1];
    assert t[..|t| - 1] == s[..p] && t == s[..p] + [s[p]];
    if LineBreak(s[p]) {
      assert s[p] in t;
    }
    forall c | c in s[..p] ensures c in t {
    }
  }

  /** The text of a PQExpBuffer. A C string is its characters before the NUL. */
  class PQExpBuffer {
    var data: string

    constructor ()
      ensures data == ""
    {
      data := "";
    }

    /** appendShellStringNoError */
    method AppendShellStringNoError(str: string) returns (ok: bool)
      modifies this
      ensures data == old(data) + Quote(str)
      ensures var bare := str != "" && forall c :: c in str ==>
                'a' <= c <= 'z' || 'A' <= c <= 'Z' || '0' <= c <= '9' || c in {'-', '_', '.', '/', ':'};
              if bare then data == old(data) + str
              else old(data) + "'" <= data && |data| >= |old(data)| + 2 && data[|data| - 1] == '\''
      ensures ok <==> '\n' !in str && '\r' !in str
    {
      if str != [] && AllSafe(str) {
        data := data + str;
        return true;
      }
      data := data + "'";
      ok := AppendQuotedBody(str);
      data := data + "'";
      assert data == old(data) + ("'" + QuotedBody(str) + "'");
    }

    /** The loop of appendShellStringNoError. */
    method AppendQuotedBody(str: string) returns (ok: bool)
      modifies this
      ensures data == old(data) + QuotedBody(str)
      ensures ok <==> !HasLineBreak(str)
    {
      ok := true;
      var p := 0;
      while p < |str|
        invariant 0 <= p <= |str|
        invariant data == old(data) + QuotedBody(str[..p])
        invariant ok <==> !HasLineBreak(str[..p])
      {
        BodyStep(str, p);
        AppendAssoc(old(data), QuotedBody(str[..p]), QuotedChar(str[p]));
        var kept := AppendQuotedChar(str[p]);
        ok := ok && kept;
        p := p + 1;
      }
      assert str[..p] == str;
    }

    /** The body of that loop: false for a dropped line break. */
    method AppendQuotedChar(c: char) returns (kept: bool)
      modifies this
      ensures data == old(data) + QuotedChar(c)
      ensures kept <==> !LineBreak(c)
    {
      if c == '\n' || c == '\r' {
        assert data == data + "";
        return false;
      }
      if c == '\'' {
        data := data + "'\"'\"'";
      } else {
        data := data + [c];
      }
      kept := true;
    }
  }

  // ---------- Reading a word back ----------

  /** Outside quotes, inside single quotes, inside double quotes. */
  datatype Quoting = Outside | Single | Double

  /** A word in progress, if any, behind the words that are complete. */
  datatype Reader = Reader(place: Quoting, words: seq<string>, word: string, started: bool)

  /** Characters that are special outside quotes (section 2.2), blanks and newlines aside. */
  predicate Special(c: char) {
    c in {'|', '&', ';', '<', '>', '(', ')', '$', '`', '\\', '*', '?', '[', ']', '#', '~', '=', '%', '!', '{', '}'}
  }

  datatype Read = Unsupported | Reading(r: Reader)

  /** One character of shell input. Expansions, operators and escapes are outside the
      quoting rules and are not read. */
  function Step(r: Reader, c: char): Read {
    match r.place
    case Single =>
      if c == '\'' then Reading(r.(place := Outside)) else Reading(r.(word := r.word + [c]))
    case Double =>
      if c == '"' then Reading(r.(place := Outside))
      else if c in {'$', '`', '\\'} then Unsupported
      else Reading(r.(word := r.word + [c]))
    case Outside =>
      if c == '\'' then Reading(r.(place := Single, started := true))
      else if c == '"' then Reading(r.(place := Double, started := true))
      else if c in {' ', '\t', '\n'} then
        Reading(if r.started then Reader(Outside, r.words + [r.word], "", false) else r)
      else if Special(c) then Unsupported
      else Reading(r.(word := r.word + [c], started := true))
  }

  function ReadOn(r: Reader, s: string): Read
    decreases |s|
  {
    if s == [] then Reading(r)
    else match Step(r, s[0])
      case Unsupported => Unsupported
      case Reading(r') => ReadOn(r', s[1..])
  }

  datatype Words = Failed | Words(ws: seq<string>)

  /** The words the shell sees, when every quote is closed. */
  function ShellWords(s: string): Words {
    match ReadOn(Reader(Outside, [], "", false), s)
    case Unsupported => Failed
    case Reading(r) =>
      if r.place != Outside then Failed else Words(if r.started then r.words + [r.word] else r.words)
  }

  lemma {:induction false} ReadOnAppend(r: Reader, a: string, b: string)
    ensures ReadOn(r, a + b) == match ReadOn(r, a) case Unsupported => Unsupported case Reading(r') => ReadOn(r', b)
    decreases |a|
  {
    if a == [] {
      assert a + b == b;
    } else {
      assert (a + b)[1..] == a[1..] + b;
      if Step(r, a[0]).Reading? {
        ReadOnAppend(Step(r, a[0]).r, a[1..], b);
      }
    }
  }

  /** Inside single quotes, the quoted form of a character reads back as the character. */
  lemma QuotedCharReadsBack(r: Reader, c: char)
    requires r.place == Single
    ensures ReadOn(r.(started := true), QuotedChar(c)) ==
      Reading(r.(started := true, word := r.word + if LineBreak(c) then "" else [c]))
  {
    var r := r.(started := true);
    if c == '\'' {
      var q := "'\"'\"'";
      assert q[1..] == "\"'\"'" && q[1..][1..] == "'\"'" && q[1..][1..][1..] == "\"'" && q[1..][1..][1..][1..] == "'";
      assert "'"[1..] == "";
      var r4 := r.(word := r.word + [c]);
      assert ReadOn(r4.(place := Outside), "'") == Reading(r4);
      assert ReadOn(r4.(place := Double), "\"'") == ReadOn(r4.(place := Outside), "'");
      assert ReadOn(r.(place := Double), "'\"'") == ReadOn(r4.(place := Double), "\"'");
      assert ReadOn(r.(place := Outside), "\"'\"'") == ReadOn(r.(place := Double), "'\"'");
    } else if !LineBreak(c) {
      assert [c][1..] == "";
    } else {
      assert r.word + "" == r.word;
    }
  }

  lemma {:induction false} QuotedBodyReadsBack(r: Reader, s: string)
    requires r.place == Single && r.started
    ensures ReadOn(r, QuotedBody(s)) == Reading(r.(word := r.word + WithoutLineBreaks(s)))
    decreases |s|
  {
    if s == [] {
      assert r.word + "" == r.word;
    } else {
      var s', c := s[..|s| - 1], s[|s| - 1];
      QuotedBodyReadsBack(r, s');
      ReadOnAppend(r, QuotedBody(s'), QuotedChar(c));
      QuotedCharReadsBack(r.(word := r.word + WithoutLineBreaks(s')), c);
      assert r.word + WithoutLineBreaks(s) == r.word + WithoutLineBreaks(s') + if LineBreak(c) then "" else [c];
    }
  }

  lemma {:induction false} SafeReadsBack(r: Reader, s: string)
    requires r.place == Outside && AllSafe(s) && s != []
    ensures ReadOn(r, s) == Reading(r.(word := r.word + s, started := true))
    decreases |s|
  {
    assert SafeChar(s[0]);
    var r' := r.(word := r.word + [s[0]], started := true);
    assert Step(r, s[0]) == Reading(r');
    if |s| == 1 {
      assert s[1..] == "" && s == [s[0]];
    } else {
      assert forall c :: c in s[1..] ==> c in s;
      SafeReadsBack(r', s[1..]);
      assert r.word + s == r'.word + s[1..];
    }
  }

  lemma {:induction false} NoBreaksNothingLost(s: string)
    requires forall c :: c in s ==> !LineBreak(c)
    ensures WithoutLineBreaks(s) == s
    decreases |s|
  {
    if s != [] {
      var n := |s| - 1;
      assert s[n] in s;
      forall c | c in s[..n] ensures c in s {
      }
      NoBreaksNothingLost(s[..n]);
      assert s == s[..n] + [s[n]];
    }
  }

  lemma SafeHasNoBreaks(s: string)
    requires AllSafe(s)
    ensures WithoutLineBreaks(s) == s
  {
    forall c | c in s ensures !LineBreak(c) {
      assert SafeChar(c);
    }
    NoBreaksNothingLost(s);
  }

  lemma SafeReadsAsItself(s: string)
    requires s != [] && AllSafe(s)
    ensures ShellWords(s) == Words([WithoutLineBreaks(s)])
  {
    SafeHasNoBreaks(s);
    SafeReadsBack(Reader(Outside, [], "", false), s);
    assert "" + s == s;
    WordsOfRead(s, Reader(Outside, [], s, true));
  }

  lemma WordsOfRead(s: string, r: Reader)
    requires ReadOn(Reader(Outside, [], "", false), s) == Reading(r) && r.place == Outside && r.started && r.words == []
    ensures ShellWords(s) == Words([r.word])
  {
    assert [] + [r.word] == [r.word];
  }

  lemma QuotedReadsAsOneWord(s: string)
    ensures ShellWords("'" + QuotedBody(s) + "'") == Words([WithoutLineBreaks(s)])
  {
    var start, open := Reader(Outside, [], "", false), Reader(Single, [], "", true);
    var rest := QuotedBody(s) + "'";
    var all := "'" + QuotedBody(s) + "'";
    assert all[0] == '\'' && all[1..] == rest;
    assert ReadOn(start, all) == ReadOn(open, rest);
    QuotedBodyReadsBack(open, s);
    ReadOnAppend(open, QuotedBody(s), "'");
    assert "" + WithoutLineBreaks(s) == WithoutLineBreaks(s);
    var done := open.(word := WithoutLineBreaks(s));
    assert "'"[1..] == "";
    assert ReadOn(done, "'") == Reading(done.(place := Outside));
    WordsOfRead(all, done.(place := Outside));
  }

  /** Round trip: for every string the shell reads the quoted form as exactly one word, the
      string without its line breaks. */
  lemma QuoteRoundTrip(s: string)
    ensures ShellWords(Quote(s)) == Words([WithoutLineBreaks(s)])
  {
    if s != [] && AllSafe(s) {
      SafeReadsAsItself(s);
    } else {
      QuotedReadsAsOneWord(s);
    }
  }
}
