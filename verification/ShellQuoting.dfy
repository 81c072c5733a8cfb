/**
 Shell quoting of command arguments, read back by the token recognition, field splitting and
 quote removal rules of sections 2.2.2, 2.2.3, 2.3 and 2.6.7 of the POSIX.1-2017 Shell Command
 Language.
 */
module ShellQuoting {
  import opened Prelude

  // ---------------------------------------------------------------- the program

  /** strings.ReplaceAll(value, "'", "'\"'\"'"). */
  function EscapeQuotes(value: string): string {
    if value == "" then ""
    else (if value[0] == '\'' then "'\"'\"'" else [value[0]]) + EscapeQuotes(value[1..])
  }

  function ShellQuote(value: string): string {
    if value == "" then "''" else "'" + EscapeQuotes(value) + "'"
  }

  /** strings.Join with one space. */
  function JoinSpaces(parts: seq<string>): string {
    if parts == [] then ""
    else if |parts| == 1 then parts[0]
    else parts[0] + " " + JoinSpaces(parts[1..])
  }

  function QuoteAll(args: seq<string>): seq<string> {
    if args == [] then [] else [ShellQuote(args[0])] + QuoteAll(args[1..])
  }

  lemma {:induction false} QuoteAllAppend(args: seq<string>, x: string)
    ensures QuoteAll(args + [x]) == QuoteAll(args) + [ShellQuote(x)]
  {
    if args == [] {
      assert args + [x] == [x];
    } else {
      assert (args + [x])[0] == args[0] && (args + [x])[1..] == args[1..] + [x];
      QuoteAllAppend(args[1..], x);
    }
  }

  method Quoted(args: seq<string>) returns (quoted: seq<string>)
    ensures quoted == QuoteAll(args)
  {
    quoted := [];
    for i := 0 to |args|
      invariant quoted == QuoteAll(args[..i])
    {
      QuoteAllAppend(args[..i], args[i]);
      assert args[..i + 1] == args[..i] + [args[i]];
      quoted := quoted + [ShellQuote(args[i])];
    }
    assert args[..|args|] == args;
  }

  method ShellJoin(args: seq<string>) returns (line: string)
    ensures line == JoinSpaces(QuoteAll(args))
    ensures ShellWords(line) == Some(args)
  {
    var quoted := Quoted(args);
    line := JoinSpaces(quoted);
    JoinReadsBack(args);
  }

  // ---------------------------------------------------------------- the shell

  /** The quoting context at a point of the command line. */
  datatype Mode = Bare | Single | Double

  predicate Blank(c: char) {
    c == ' ' || c == '\t' || c == '\n'
  }

  /** Characters that, unquoted, the shell interprets in ways other than as themselves. */
  predicate Special(c: char) {
    c in "|&;<>()$`\\*?[#~=%!{}"
  }

  /** Characters that keep a meaning between double quotes. */
  predicate SpecialInDouble(c: char) {
    c in "$`\\"
  }

  /**
   The words of a command line from some point on; word is the current word so far, or None
   between words. A line that uses any other shell feature, or leaves a quote open, is refused.
   */
  function Read(line: string, mode: Mode, word: Option<string>): Option<seq<string>> {
    if line == "" then
      if mode != Bare then None
      else if word.None? then Some([]) else Some([word.value])
    else
      var c, rest := line[0], line[1..];
      var soFar := if word.Some? then word.value else "";
      match mode
      case Single =>
        if c == '\'' then Read(rest, Bare, Some(soFar)) else Read(rest, Single, Some(soFar + [c]))
      case Double =>
        if c == '"' then Read(rest, Bare, Some(soFar))
        else if SpecialInDouble(c) then None
        else Read(rest, Double, Some(soFar + [c]))
      case Bare =>
        if c == '\'' then Read(rest, Single, Some(soFar))
        else if c == '"' then Read(rest, Double, Some(soFar))
        else if Blank(c) then
          var words := Read(rest, Bare, None);
          if word.None? || words.None? then words else Some([word.value] + words.value)
        else if Special(c) then None
        else Read(rest, Bare, Some(soFar + [c]))
  }

  function ShellWords(line: string): Option<seq<string>> {
    Read(line, Bare, None)
  }

  // ---------------------------------------------------------------- reading back

  lemma CloseSingle(rest: string, word: string)
    ensures Read("'" + rest, Single, Some(word)) == Read(rest, Bare, Some(word))
  {
    assert ("'" + rest)[0] == '\'' && ("'" + rest)[1..] == rest;
  }

  lemma OpenSingle(rest: string, word: string)
    ensures Read("'" + rest, Bare, Some(word)) == Read(rest, Single, Some(word))
  {
    assert ("'" + rest)[0] == '\'' && ("'" + rest)[1..] == rest;
  }

  lemma OpenDouble(rest: string, word: string)
    ensures Read("\"" + rest, Bare, Some(word)) == Read(rest, Double, Some(word))
  {
    assert ("\"" + rest)[0] == '"' && ("\"" + rest)[1..] == rest;
  }

  lemma CloseDouble(rest: string, word: string)
    ensures Read("\"" + rest, Double, Some(word)) == Read(rest, Bare, Some(word))
  {
    assert ("\"" + rest)[0] == '"' && ("\"" + rest)[1..] == rest;
  }

  lemma QuoteInDouble(rest: string, word: string)
    ensures Read("'" + rest, Double, Some(word)) == Read(rest, Double, Some(word + "'"))
  {
    assert ("'" + rest)[0] == '\'' && ("'" + rest)[1..] == rest && word + ['\''] == word + "'";
  }

  /** Closing the quotes, a quoted quote, and opening them again contribute one quote. */
  lemma QuoteReadsBack(tail: string, word: string)
    ensures Read("'\"'\"'" + tail, Single, Some(word)) == Read(tail, Single, Some(word + "'"))
  {
    var l4 := "'" + tail;
    var l3 := "\"" + l4;
    var l2 := "'" + l3;
    var l1 := "\"" + l2;
    assert "'\"'\"'" + tail == "'" + l1;
    CloseSingle(l1, word);
    OpenDouble(l2, word);
    QuoteInDouble(l3, word);
    CloseDouble(l4, word + "'");
    OpenSingle(tail, word + "'");
  }

  lemma PlainInSingle(c: char, rest: string, word: string)
    requires c != '\''
    ensures Read([c] + rest, Single, Some(word)) == Read(rest, Single, Some(word + [c]))
  {
    assert ([c] + rest)[0] == c && ([c] + rest)[1..] == rest;
  }

  lemma EscapeUnfolds(value: string)
    requires value != ""
    ensures EscapeQuotes(value) == (if value[0] == '\'' then "'\"'\"'" else [value[0]]) + EscapeQuotes(value[1..])
  {
  }

  /** Inside single quotes, the escaped text reads as the text itself. */
  lemma {:induction false} EscapeReadsBack(value: string, rest: string, word: string)
    ensures Read(EscapeQuotes(value) + rest, Single, Some(word)) == Read(rest, Single, Some(word + value))
    decreases |value|
  {
    if value == "" {
      assert EscapeQuotes(value) + rest == rest && word + value == word;
    } else {
      var c, tail := value[0], EscapeQuotes(value[1..]) + rest;
      assert word + value == (word + [c]) + value[1..];
      EscapeReadsBack(value[1..], rest, word + [c]);
      EscapeUnfolds(value);
      if c == '\'' {
        assert EscapeQuotes(value) + rest == "'\"'\"'" + tail;
        QuoteReadsBack(tail, word);
        assert word + "'" == word + [c];
      } else {
        assert EscapeQuotes(value) + rest == [c] + tail;
        PlainInSingle(c, tail, word);
      }
    }
  }

  /** A quoted argument at the start of a word reads as one word in progress, even an empty one. */
  lemma QuotedReadsBack(value: string, rest: string)
    ensures Read(ShellQuote(value) + rest, Bare, None) == Read(rest, Bare, Some(value))
  {
    var inner := EscapeQuotes(value) + ("'" + rest);
    assert ShellQuote(value) + rest == "'" + inner;
    assert ("'" + inner)[1..] == inner && ("'" + rest)[1..] == rest;
    EscapeReadsBack(value, "'" + rest, "");
    assert "" + value == value;
  }

  lemma OneReadsBack(value: string)
    ensures ShellWords(ShellQuote(value)) == Some([value])
  {
    QuotedReadsBack(value, "");
    assert ShellQuote(value) + "" == ShellQuote(value);
  }

  lemma FirstReadsBack(value: string, rest: string, words: seq<string>)
    requires ShellWords(rest) == Some(words)
    ensures ShellWords(ShellQuote(value) + (" " + rest)) == Some([value] + words)
  {
    QuotedReadsBack(value, " " + rest);
    assert (" " + rest)[1..] == rest;
  }

  lemma JoinFirst(first: string, rest: seq<string>)
    requires rest != []
    ensures JoinSpaces([first] + rest) == first + (" " + JoinSpaces(rest))
  {
    assert ([first] + rest)[1..] == rest;
  }

  lemma {:induction false} QuoteAllLength(args: seq<string>)
    ensures |QuoteAll(args)| == |args|
  {
    if args != [] {
      QuoteAllLength(args[1..]);
    }
  }

  /** Every argument list comes back from the shell exactly as it went in. */
  lemma {:induction false} JoinReadsBack(args: seq<string>)
    ensures ShellWords(JoinSpaces(QuoteAll(args))) == Some(args)
  {
    if args == [] {
    } else if |args| == 1 {
      OneReadsBack(args[0]);
      assert QuoteAll(args) == [ShellQuote(args[0])];
      assert args == [args[0]];
    } else {
      JoinReadsBack(args[1..]);
      FirstReadsBack(args[0], JoinSpaces(QuoteAll(args[1..])), args[1..]);
      QuoteAllLength(args[1..]);
      JoinFirst(ShellQuote(args[0]), QuoteAll(args[1..]));
      assert [args[0]] + args[1..] == args;
    }
  }

  /** Different argument lists give different command lines. */
  lemma ShellJoinInjective(a: seq<string>, b: seq<string>)
    requires JoinSpaces(QuoteAll(a)) == JoinSpaces(QuoteAll(b))
    ensures a == b
  {
    JoinReadsBack(a);
    JoinReadsBack(b);
  }
}
