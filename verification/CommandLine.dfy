/**
 The language of console command lines.  `Parse` reads it character by character, without a limit on the number of
 arguments; `Layout` says what a line stands for.
 */
module CommandLine {
  import opened Bytes

  const QUOTE: byte := 0x22
  const ESCAPE: byte := 0x5C
  const SPACE: byte := 0x20

  datatype Mode = Between | Plain | Quoted | PlainEscaped | QuotedEscaped

  /** The effect of one character: the next mode, the character to output, and the end of an argument. */
  datatype Move = Move(mode: Mode, out: Option<byte>, ends: bool)

  function Next(m: Mode, c: byte): (r: Move) {
    match m
    case Between =>
      if c == SPACE then Move(Between, None, false)
      else if c == QUOTE then Move(Quoted, None, false)
      else if c == ESCAPE then Move(PlainEscaped, None, false)
      else Move(Plain, Some(c), false)
    case Quoted =>
      if c == QUOTE then Move(Between, None, true)
      else if c == ESCAPE then Move(QuotedEscaped, None, false)
      else Move(Quoted, Some(c), false)
    case Plain =>
      if c == SPACE then Move(Between, None, true)
      else if c == ESCAPE then Move(PlainEscaped, None, false)
      else Move(Plain, Some(c), false)
    case PlainEscaped => Move(Plain, if Escapable(c) then Some(c) else None, false)
    case QuotedEscaped => Move(Quoted, if Escapable(c) then Some(c) else None, false)
  }

  predicate Escapable(c: byte) {
    c == ESCAPE || c == QUOTE || c == SPACE
  }

  /** The arguments of the rest of a line, when `cur` has been read of the current one. */
  function Parse(m: Mode, cur: seq<byte>, input: seq<byte>): (args: seq<seq<byte>>)
    decreases |input|
  {
    if input == [] then
      if m == Between then [] else [cur]
    else
      var r := Next(m, input[0]);
      if r.ends then [cur] + Parse(Between, [], input[1..])
      else Parse(r.mode, if r.out.Some? then cur + [r.out.value] else cur, input[1..])
  }

  function Tokenise(line: seq<byte>): (args: seq<seq<byte>>) {
    Parse(Between, [], line)
  }

  // ---- Quoting is undone by splitting ----

  function Escape(arg: seq<byte>): (s: seq<byte>) {
    if arg == [] then []
    else Escaped(arg[0]) + Escape(arg[1..])
  }

  function Escaped(c: byte): (s: seq<byte>) {
    if c == QUOTE || c == ESCAPE then [ESCAPE, c] else [c]
  }

  function Quote(arg: seq<byte>): (s: seq<byte>) {
    [QUOTE] + Escape(arg) + [QUOTE]
  }

  function Join(args: seq<seq<byte>>): (s: seq<byte>) {
    if args == [] then []
    else if |args| == 1 then Quote(args[0])
    else Quote(args[0]) + [SPACE] + Join(args[1..])
  }

  lemma {:induction false} ParseEscaped(cur: seq<byte>, arg: seq<byte>, rest: seq<byte>)
    ensures Parse(Quoted, cur, Escape(arg) + [QUOTE] + rest) == [cur + arg] + Parse(Between, [], rest)
    decreases |arg|
  {
    var input := Escape(arg) + [QUOTE] + rest;
    if arg == [] {
      assert input[0] == QUOTE && input[1..] == rest;
      assert cur + [] == cur;
    } else {
      var tail := Escape(arg[1..]) + [QUOTE] + rest;
      assert input == Escaped(arg[0]) + tail;
      hide Parse, Escape, Escaped;
      ParseOne(cur, arg[0], tail);
      ParseEscaped(cur + [arg[0]], arg[1..], rest);
      assert cur + [arg[0]] + arg[1..] == cur + arg;
    }
  }

  /** One character of a quoted argument. */
  lemma ParseOne(cur: seq<byte>, c: byte, tail: seq<byte>)
    ensures Parse(Quoted, cur, Escaped(c) + tail) == Parse(Quoted, cur + [c], tail)
  {
    var input := Escaped(c) + tail;
    if c == QUOTE || c == ESCAPE {
      assert input[1..] == [c] + tail && ([c] + tail)[1..] == tail;
      assert Parse(Quoted, cur, input) == Parse(QuotedEscaped, cur, [c] + tail);
    } else {
      assert input[1..] == tail;
    }
  }

  lemma ParseQuote(arg: seq<byte>, rest: seq<byte>)
    ensures Parse(Between, [], Quote(arg) + rest) == [arg] + Parse(Between, [], rest)
  {
    var input := Quote(arg) + rest;
    assert input[0] == QUOTE && input[1..] == Escape(arg) + [QUOTE] + rest;
    ParseEscaped([], arg, rest);
    assert [] + arg == arg;
  }

  /** Quoting every argument and joining with spaces is undone by splitting, empty arguments included. */
  lemma {:induction false} QuotedLineRoundTrip(args: seq<seq<byte>>)
    ensures Tokenise(Join(args)) == args
    decreases |args|
  {
    if args == [] {
    } else if |args| == 1 {
      ParseQuote(args[0], []);
      assert Quote(args[0]) + [] == Quote(args[0]);
      assert args == [args[0]];
    } else {
      var tail := [SPACE] + Join(args[1..]);
      ParseQuote(args[0], tail);
      assert Join(args) == Quote(args[0]) + tail;
      assert tail[1..] == Join(args[1..]);
      QuotedLineRoundTrip(args[1..]);
      assert args == [args[0]] + args[1..];
    }
  }

  /** Quoting introduces no terminator. */
  lemma {:induction false} QuotedHasNoNul(arg: seq<byte>)
    requires 0 !in arg
    ensures 0 !in Quote(arg) && 0 !in Escape(arg)
    decreases |arg|
  {
    if arg != [] {
      QuotedHasNoNul(arg[1..]);
    }
  }

  /** A line of quoted arguments has no terminator in it. */
  lemma {:induction false} JoinHasNoNul(args: seq<seq<byte>>)
    requires forall i :: 0 <= i < |args| ==> 0 !in args[i]
    ensures 0 !in Join(args)
    decreases |args|
  {
    if args != [] {
      QuotedHasNoNul(args[0]);
      JoinHasNoNul(args[1..]);
    }
  }

  // ---- What a line means, apart from how it is read ----

  /** A character of an argument, as it is written: itself, or behind a backslash. */
  datatype Piece = Literal(c: byte) | Behind(c: byte)

  /** A line from left to right: spaces between arguments, words, and arguments in quotes.  An unquoted word reaches
      to the next space; text directly behind a closing quote is a new argument.  A line may end within an argument. */
  datatype Layout =
    | End
    | Space(rest: Layout)
    | Word(pieces: seq<Piece>, rest: Layout)
    | InQuotes(pieces: seq<Piece>, rest: Layout)
    | OpenWord(pieces: seq<Piece>)                    // the line ends behind a backslash
    | OpenQuotes(pieces: seq<Piece>, escape: bool)    // no closing quote, perhaps behind a backslash

  /** A quote is an ordinary character of a word, except in front. */
  predicate WordOk(pieces: seq<Piece>) {
    && (forall p :: p in pieces && p.Literal? ==> p.c != SPACE && p.c != ESCAPE)
    && (pieces != [] && pieces[0].Literal? ==> pieces[0].c != QUOTE)
  }

  predicate QuotesOk(pieces: seq<Piece>) {
    forall p :: p in pieces && p.Literal? ==> p.c != QUOTE && p.c != ESCAPE
  }

  predicate LayoutOk(l: Layout) {
    match l
    case End => true
    case Space(rest) => LayoutOk(rest)
    case Word(pieces, rest) => pieces != [] && WordOk(pieces) && (rest.End? || rest.Space?) && LayoutOk(rest)
    case InQuotes(pieces, rest) => QuotesOk(pieces) && LayoutOk(rest)
    case OpenWord(pieces) => WordOk(pieces)
    case OpenQuotes(pieces, _) => QuotesOk(pieces)
  }

  function Written(p: Piece): (s: seq<byte>) {
    match p case Literal(c) => [c] case Behind(c) => [ESCAPE, c]
  }

  /** A backslash makes a space, a quote or a backslash literal, and drops any other character. */
  function Meant(p: Piece): (s: seq<byte>) {
    match p
    case Literal(c) => [c]
    case Behind(c) => if c == SPACE || c == QUOTE || c == ESCAPE then [c] else []
  }

  function Text(pieces: seq<Piece>): (s: seq<byte>) {
    if pieces == [] then [] else Written(pieces[0]) + Text(pieces[1..])
  }

  function Value(pieces: seq<Piece>): (s: seq<byte>) {
    if pieces == [] then [] else Meant(pieces[0]) + Value(pieces[1..])
  }

  function Line(l: Layout): (s: seq<byte>) {
    match l
    case End => []
    case Space(rest) => [SPACE] + Line(rest)
    case Word(pieces, rest) => Text(pieces) + Line(rest)
    case InQuotes(pieces, rest) => [QUOTE] + (Text(pieces) + ([QUOTE] + Line(rest)))
    case OpenWord(pieces) => Text(pieces) + [ESCAPE]
    case OpenQuotes(pieces, escape) => [QUOTE] + (Text(pieces) + if escape then [ESCAPE] else [])
  }

  function Args(l: Layout): (args: seq<seq<byte>>) {
    match l
    case End => []
    case Space(rest) => Args(rest)
    case Word(pieces, rest) => [Value(pieces)] + Args(rest)
    case InQuotes(pieces, rest) => [Value(pieces)] + Args(rest)
    case OpenWord(pieces) => [Value(pieces)]
    case OpenQuotes(pieces, _) => [Value(pieces)]
  }

  /** A character that stands for itself in this mode. */
  predicate Plainly(m: Mode, c: byte) {
    c != ESCAPE && ((m == Plain && c != SPACE) || (m == Quoted && c != QUOTE))
  }

  lemma ParsePiece(m: Mode, cur: seq<byte>, p: Piece, rest: seq<byte>)
    requires m == Plain || m == Quoted
    requires p.Literal? ==> Plainly(m, p.c)
    ensures Parse(m, cur, Written(p) + rest) == Parse(m, cur + Meant(p), rest)
  {
    var input := Written(p) + rest;
    match p {
      case Literal(c) =>
        assert input[1..] == rest;
      case Behind(c) =>
        assert input[1..] == [c] + rest && ([c] + rest)[1..] == rest;
        assert cur + [] == cur;
        assert Parse(m, cur, input) == Parse(if m == Plain then PlainEscaped else QuotedEscaped, cur, [c] + rest);
    }
  }

  /** Characters of an argument, in the middle of it. */
  lemma {:induction false} ParsePieces(m: Mode, cur: seq<byte>, pieces: seq<Piece>, rest: seq<byte>)
    requires m == Plain || m == Quoted
    requires forall p :: p in pieces && p.Literal? ==> Plainly(m, p.c)
    ensures Parse(m, cur, Text(pieces) + rest) == Parse(m, cur + Value(pieces), rest)
    decreases |pieces|
  {
    if pieces == [] {
      assert [] + rest == rest && cur + [] == cur;
    } else {
      var p, tail := pieces[0], Text(pieces[1..]) + rest;
      assert Text(pieces) + rest == Written(p) + tail;
      assert cur + Value(pieces) == (cur + Meant(p)) + Value(pieces[1..]);
      hide Parse, Text, Value, Plainly, Meant, Written;
      ParsePiece(m, cur, p, tail);
      ParsePieces(m, cur + Meant(p), pieces[1..], rest);
    }
  }

  /** A word from its first character, or from the backslash at the end of the line. */
  lemma ParseWord(pieces: seq<Piece>, rest: seq<byte>)
    requires WordOk(pieces) && (pieces != [] || rest == [ESCAPE])
    ensures Parse(Between, [], Text(pieces) + rest) == Parse(Plain, [], Text(pieces) + rest)
  {
    var input := Text(pieces) + rest;
    if pieces == [] {
      assert input == [ESCAPE];
    } else {
      assert input[0] == if pieces[0].Literal? then pieces[0].c else ESCAPE;
    }
    StartWord(input);
  }

  lemma StartWord(input: seq<byte>)
    requires input != [] && input[0] != SPACE && input[0] != QUOTE
    ensures Parse(Between, [], input) == Parse(Plain, [], input)
  {
  }

  lemma ParseSpace(rest: seq<byte>)
    ensures Parse(Between, [], [SPACE] + rest) == Parse(Between, [], rest)
  {
    assert ([SPACE] + rest)[1..] == rest;
  }

  lemma ParseOpening(rest: seq<byte>)
    ensures Parse(Between, [], [QUOTE] + rest) == Parse(Quoted, [], rest)
  {
    assert ([QUOTE] + rest)[1..] == rest;
  }

  /** What ends an argument: a space or the end of the line for a word, a closing quote for a quoted argument. */
  lemma ParseEnding(cur: seq<byte>, rest: seq<byte>)
    ensures Parse(Plain, cur, [SPACE] + rest) == [cur] + Parse(Between, [], [SPACE] + rest)
    ensures Parse(Quoted, cur, [QUOTE] + rest) == [cur] + Parse(Between, [], rest)
    ensures Parse(Plain, cur, []) == [cur] && Parse(Quoted, cur, []) == [cur]
    ensures Parse(Plain, cur, [ESCAPE]) == [cur] && Parse(Quoted, cur, [ESCAPE]) == [cur]
  {
    ParseSpace(rest);
    assert ([SPACE] + rest)[1..] == rest && ([QUOTE] + rest)[1..] == rest && [ESCAPE][1..] == [];
  }

  /** Splitting gives every line the meaning of its layout. */
  lemma {:induction false} SplitsAsLaidOut(l: Layout)
    requires LayoutOk(l)
    ensures Tokenise(Line(l)) == Args(l)
    decreases l
  {
    hide Parse, Text, Value;
    match l {
      case End =>
        ParseNothing();
      case Space(rest) =>
        ParseSpace(Line(rest));
        SplitsAsLaidOut(rest);
      case Word(pieces, rest) =>
        ParseWord(pieces, Line(rest));
        ParsePieces(Plain, [], pieces, Line(rest));
        assert [] + Value(pieces) == Value(pieces);
        ParseEnding(Value(pieces), if rest.Space? then Line(rest.rest) else []);
        SplitsAsLaidOut(rest);
      case InQuotes(pieces, rest) =>
        ParseOpening(Text(pieces) + ([QUOTE] + Line(rest)));
        ParsePieces(Quoted, [], pieces, [QUOTE] + Line(rest));
        assert [] + Value(pieces) == Value(pieces);
        ParseEnding(Value(pieces), Line(rest));
        SplitsAsLaidOut(rest);
      case OpenWord(pieces) =>
        ParseWord(pieces, [ESCAPE]);
        ParsePieces(Plain, [], pieces, [ESCAPE]);
        assert [] + Value(pieces) == Value(pieces);
        ParseEnding(Value(pieces), []);
      case OpenQuotes(pieces, escape) =>
        var tail := if escape then [ESCAPE] else [];
        ParseOpening(Text(pieces) + tail);
        ParsePieces(Quoted, [], pieces, tail);
        assert [] + Value(pieces) == Value(pieces);
        ParseEnding(Value(pieces), []);
    }
  }

  lemma ParseNothing()
    ensures Parse(Between, [], []) == []
  {
  }

  /** The characters of an argument up to `stop`, to the end, or to a backslash there. */
  lemma {:induction false} TakePieces(s: seq<byte>, stop: byte) returns (pieces: seq<Piece>, rest: seq<byte>)
    requires stop != ESCAPE
    ensures s == Text(pieces) + rest && |rest| <= |s|
    ensures rest == [] || rest[0] == stop || rest == [ESCAPE]
    ensures forall p :: p in pieces && p.Literal? ==> p.c != stop && p.c != ESCAPE
    ensures s != [] && s[0] != stop && s[0] != ESCAPE ==> pieces != [] && pieces[0] == Literal(s[0])
    ensures s != [] && s[0] == ESCAPE ==> (pieces == [] && rest == [ESCAPE]) || (pieces != [] && pieces[0].Behind?)
    decreases |s|
  {
    if s == [] || s[0] == stop || s == [ESCAPE] {
      pieces, rest := [], s;
    } else {
      var p := if s[0] == ESCAPE then Behind(s[1]) else Literal(s[0]);
      var tail := s[|Written(p)|..];
      assert s == Written(p) + tail;
      var more, left := TakePieces(tail, stop);
      pieces, rest := [p] + more, left;
      hide Written, Text;
      TextCons(p, more, left);
    }
  }

  lemma TextCons(p: Piece, more: seq<Piece>, rest: seq<byte>)
    ensures Text([p] + more) + rest == Written(p) + (Text(more) + rest)
  {
    assert ([p] + more)[1..] == more;
  }

  lemma StartsWithSpace(l: Layout)
    requires LayoutOk(l) && (Line(l) == [] || Line(l)[0] == SPACE)
    ensures l.End? || l.Space?
  {
  }

  /** Every line has a layout, so that `SplitsAsLaidOut` says what is made of it. */
  lemma {:induction false} EveryLineIsLaidOut(line: seq<byte>) returns (l: Layout)
    ensures LayoutOk(l) && Line(l) == line && Tokenise(line) == Args(l)
    decreases |line|
  {
    hide Text, Value, Args, Tokenise;
    if line == [] {
      l := End;
    } else if line[0] == SPACE {
      var rest := EveryLineIsLaidOut(line[1..]);
      l := Space(rest);
    } else if line[0] == QUOTE {
      var pieces, left := TakePieces(line[1..], QUOTE);
      if left == [] || left == [ESCAPE] {
        l := OpenQuotes(pieces, left == [ESCAPE]);
      } else {
        var rest := EveryLineIsLaidOut(left[1..]);
        l := InQuotes(pieces, rest);
        assert left == [QUOTE] + Line(rest);
      }
    } else {
      var pieces, left := TakePieces(line, SPACE);
      if left == [ESCAPE] {
        l := OpenWord(pieces);
      } else {
        var rest := EveryLineIsLaidOut(left);
        StartsWithSpace(rest);
        l := Word(pieces, rest);
      }
    }
    SplitsAsLaidOut(l);
  }

  /** These are the arguments that the line stands for. */
  ghost predicate StandsFor(line: seq<byte>, args: seq<seq<byte>>) {
    exists l :: LayoutOk(l) && Line(l) == line && Args(l) == args
  }

  /** Splitting gives the arguments a line stands for, and it stands for no others. */
  lemma TokenisesIff(line: seq<byte>, args: seq<seq<byte>>)
    ensures Tokenise(line) == args <==> StandsFor(line, args)
  {
    hide Tokenise, Line, Args;
    var l := EveryLineIsLaidOut(line);
    forall k | LayoutOk(k) && Line(k) == line
      ensures Args(k) == Tokenise(line)
    {
      SplitsAsLaidOut(k);
    }
  }

  // ---- Words with spaces around them ----

  function EscapeWord(word: seq<byte>): (s: seq<byte>) {
    if word == [] then []
    else
      var c := word[0];
      (if c == SPACE || c == QUOTE || c == ESCAPE then [ESCAPE, c] else [c]) + EscapeWord(word[1..])
  }

  function Spaces(n: nat): (s: seq<byte>) {
    if n == 0 then [] else [SPACE] + Spaces(n - 1)
  }

  /** The words with `gaps[i]` spaces in front of word `i` and the last gap behind them. */
  function Spread(words: seq<seq<byte>>, gaps: seq<nat>): (s: seq<byte>)
    requires |gaps| == |words| + 1
  {
    Spaces(gaps[0]) + if words == [] then [] else EscapeWord(words[0]) + Spread(words[1..], gaps[1..])
  }

  ghost predicate Apart(words: seq<seq<byte>>, gaps: seq<nat>) {
    && |gaps| == |words| + 1
    && (forall i :: 0 <= i < |words| ==> words[i] != [])
    && (forall i :: 0 < i < |words| ==> gaps[i] > 0)
  }

  lemma {:induction false} WordPieces(word: seq<byte>) returns (pieces: seq<Piece>)
    ensures WordOk(pieces) && |pieces| == |word| && Text(pieces) == EscapeWord(word) && Value(pieces) == word
    decreases |word|
  {
    if word == [] {
      pieces := [];
    } else {
      var c := word[0];
      var more := WordPieces(word[1..]);
      pieces := [if c == SPACE || c == QUOTE || c == ESCAPE then Behind(c) else Literal(c)] + more;
      assert pieces[1..] == more;
    }
  }

  lemma {:induction false} Pad(n: nat, l: Layout) returns (l': Layout)
    requires LayoutOk(l)
    ensures LayoutOk(l') && Line(l') == Spaces(n) + Line(l) && Args(l') == Args(l)
    ensures if n > 0 then l'.Space? else l' == l
    decreases n
  {
    if n == 0 {
      l' := l;
      assert [] + Line(l) == Line(l);
    } else {
      assert Spaces(n) + Line(l) == [SPACE] + (Spaces(n - 1) + Line(l));
      hide Spaces, Text, Value;
      var rest := Pad(n - 1, l);
      l' := Space(rest);
    }
  }

  lemma {:induction false} SpreadIsLaidOut(words: seq<seq<byte>>, gaps: seq<nat>) returns (l: Layout)
    requires Apart(words, gaps)
    ensures LayoutOk(l) && Line(l) == Spread(words, gaps) && Args(l) == words
    ensures gaps[0] > 0 || words == [] ==> l.End? || l.Space?
    decreases |words|
  {
    hide Text, Value, Spaces, EscapeWord;
    var inner := End;
    if words != [] {
      var pieces := WordPieces(words[0]);
      var rest := SpreadIsLaidOut(words[1..], gaps[1..]);
      inner := Word(pieces, rest);
      assert words == [words[0]] + words[1..];
    }
    l := Pad(gaps[0], inner);
  }

  lemma {:induction false} SpreadHasNoNul(words: seq<seq<byte>>, gaps: seq<nat>)
    requires |gaps| == |words| + 1 && forall i :: 0 <= i < |words| ==> 0 !in words[i]
    ensures 0 !in Spread(words, gaps)
    decreases |words|
  {
    SpacesNoNul(gaps[0]);
    if words != [] {
      EscapeNoNul(words[0]);
      SpreadHasNoNul(words[1..], gaps[1..]);
    }
  }

  lemma SpacesNoNul(n: nat)
    ensures 0 !in Spaces(n)
  {
  }

  lemma EscapeNoNul(word: seq<byte>)
    requires 0 !in word
    ensures 0 !in EscapeWord(word)
  {
  }

  /** Words in which spaces, quotes and backslashes are escaped come back, whatever spaces separate and
      surround them. */
  lemma SpreadRoundTrip(words: seq<seq<byte>>, gaps: seq<nat>)
    requires Apart(words, gaps)
    ensures Tokenise(Spread(words, gaps)) == words
  {
    var l := SpreadIsLaidOut(words, gaps);
    SplitsAsLaidOut(l);
  }
}
