/**
 The command-line tokeniser of the console, which splits a line in place.
 */
module SplitArgv {
  import opened Bytes
  import opened CommandLine

  /** A terminated string at `p`. */
  ghost predicate StringAt(mem: seq<byte>, p: nat, s: seq<byte>) {
    p + |s| < |mem| && mem[p..p + |s|] == s && mem[p + |s|] == 0
  }

  /** The finished arguments lie, terminated, below `limit`. */
  ghost predicate Finished(mem: seq<byte>, argv: seq<Option<nat>>, done: seq<seq<byte>>, limit: nat) {
    && |done| <= |argv|
    && forall k :: 0 <= k < |done| ==>
         argv[k].Some? && StringAt(mem, argv[k].value, done[k]) && argv[k].value + |done[k]| < limit
  }

  /** Cells from `limit` on, and entries after the finished ones, do not matter. */
  lemma FinishedFrame(mem: seq<byte>, mem': seq<byte>, argv: seq<Option<nat>>, argv': seq<Option<nat>>,
                      done: seq<seq<byte>>, limit: nat, limit': nat)
    requires Finished(mem, argv, done, limit) && limit <= limit'
    requires limit <= |mem| && |mem| == |mem'| && |argv| == |argv'|
    requires mem[..limit] == mem'[..limit] && argv[..|done|] == argv'[..|done|]
    ensures Finished(mem', argv', done, limit')
  {
  }

  /** One more argument, just terminated at `limit`. */
  lemma FinishedOneMore(mem: seq<byte>, argv: seq<Option<nat>>, done: seq<seq<byte>>,
                        arg: seq<byte>, start: nat, limit: nat)
    requires Finished(mem, argv, done, limit) && |done| < |argv| && argv[|done|] == Some(start)
    requires start + |arg| == limit < |mem| && mem[start..limit] == arg && mem[limit] == 0
    ensures Finished(mem, argv, done + [arg], limit + 1)
  {
  }

  /** The switch on the state: what one character does. */
  method Switch(mode: Mode, c: byte) returns (mode': Mode, charOut: int, begins: bool, ends: bool)
    ensures mode' == Next(mode, c).mode && ends == Next(mode, c).ends
    ensures charOut == if ends then 0 else if Next(mode, c).out.Some? then Next(mode, c).out.value else -1
    ensures begins <==> mode == Between && mode' != Between
    ensures ends ==> mode != Between && mode' == Between
    ensures mode' == Between && !ends ==> mode == Between && charOut == -1
  {
    mode', charOut, begins, ends := mode, -1, false, false;
    match mode {
      case Between =>
        if c == SPACE {
        } else if c == QUOTE {
          begins := true;
          mode' := Quoted;
        } else if c == ESCAPE {
          begins := true;
          mode' := PlainEscaped;
        } else {
          begins := true;
          mode' := Plain;
          charOut := c;
        }
      case Quoted =>
        if c == QUOTE {
          charOut, ends, mode' := 0, true, Between;
        } else if c == ESCAPE {
          mode' := QuotedEscaped;
        } else {
          charOut := c;
        }
      case PlainEscaped =>
        if Escapable(c) {
          charOut := c;
        }
        mode' := Plain;
      case QuotedEscaped =>
        if Escapable(c) {
          charOut := c;
        }
        mode' := Quoted;
      case Plain =>
        if c == SPACE {
          charOut, ends, mode' := 0, true, Between;
        } else if c == ESCAPE {
          mode' := PlainEscaped;
        } else {
          charOut := c;
        }
    }
  }

  /** The variables of the loop. */
  datatype Scan = Scan(mode: Mode, argc: nat, start: nat, outPos: nat, inPos: nat)

  /** What holds before every turn: the input not yet read is untouched, the finished arguments lie below
      the write position, and the rest of the parse is that of the unread input. */
  ghost predicate LoopOk(mem: seq<byte>, line: seq<byte>, n: nat, argv: seq<Option<nat>>, s: Scan,
                         done: seq<seq<byte>>, cur: seq<byte>)
  {
    && |mem| == |line| && n < |line| && s.argc < |argv| && s.outPos <= s.inPos <= n
    && mem[s.inPos..] == line[s.inPos..]
    && |done| == s.argc && Finished(mem, argv, done, s.outPos)
    && Tokenise(line[..n]) == done + Parse(s.mode, cur, line[s.inPos..n])
    && (s.mode == Between ==> cur == [])
    && (s.mode != Between ==> s.start <= s.outPos && mem[s.start..s.outPos] == cur && s.argc < |argv| - 1)
  }

  lemma NextFacts(m: Mode, c: byte)
    ensures var r := Next(m, c);
            && (r.ends ==> m != Between && r.mode == Between && r.out == None)
            && (!r.ends && r.mode == Between ==> m == Between && r.out == None)
  {
  }

  /** Reading a character leaves the rest of the input. */
  lemma Unread(mem: seq<byte>, mem': seq<byte>, before: seq<byte>, p: nat, i: nat)
    requires |mem| == |mem'| == |before| && p <= i < |mem| && mem[i..] == before[i..]
    requires forall k :: p < k < |mem| ==> mem'[k] == mem[k]
    ensures mem'[i + 1..] == before[i + 1..]
  {
    assert mem'[i + 1..] == mem[i..][1..] == before[i..][1..];
  }

  /** A turn that ends an argument. */
  lemma EndsTurn(mem: seq<byte>, before: seq<byte>, n: nat, av: seq<Option<nat>>, s: Scan,
                 done: seq<seq<byte>>, cur: seq<byte>)
    requires LoopOk(mem, before, n, av, s, done, cur) && s.argc < |av| - 1 && s.inPos < n
    requires Next(s.mode, before[s.inPos]).ends
    ensures LoopOk(mem[s.outPos := 0], before, n, av[s.argc := Some(s.start)],
                   Scan(Between, s.argc + 1, s.start, s.outPos + 1, s.inPos + 1), done + [cur], [])
  {
    hide Finished, Next, Tokenise;
    var mem', av', p, input := mem[s.outPos := 0], av[s.argc := Some(s.start)], s.outPos, before[s.inPos..n];
    NextFacts(s.mode, before[s.inPos]);
    ParseStep(s.mode, cur, input);
    assert input[1..] == before[s.inPos + 1..n];
    Unread(mem, mem', before, p, s.inPos);
    assert mem'[..p] == mem[..p] && av'[..|done|] == av[..|done|];
    FinishedFrame(mem, mem', av, av', done, p, p);
    CurGrows(mem, mem', s.start, p, cur, -1);
    FinishedOneMore(mem', av', done, cur, s.start, p);
    CatAssoc(done, [cur], Parse(Between, [], input[1..]));
  }

  lemma CatAssoc<T>(a: seq<T>, b: seq<T>, c: seq<T>)
    ensures a + (b + c) == (a + b) + c
  {
  }

  /** A turn within an argument, at the start of one, or between two. */
  lemma StaysTurn(mem: seq<byte>, before: seq<byte>, n: nat, av: seq<Option<nat>>, s: Scan,
                  done: seq<seq<byte>>, cur: seq<byte>)
    requires LoopOk(mem, before, n, av, s, done, cur) && s.argc < |av| - 1 && s.inPos < n
    requires !Next(s.mode, before[s.inPos]).ends
    ensures var r, p := Next(s.mode, before[s.inPos]), s.outPos;
            var start := if s.mode == Between && r.mode != Between then p else s.start;
            if r.out.Some?
            then LoopOk(mem[p := r.out.value], before, n, av, Scan(r.mode, s.argc, start, p + 1, s.inPos + 1),
                        done, cur + [r.out.value])
            else LoopOk(mem, before, n, av, Scan(r.mode, s.argc, start, p, s.inPos + 1), done, cur)
  {
    hide Finished, Next, Tokenise;
    var r, p, input := Next(s.mode, before[s.inPos]), s.outPos, before[s.inPos..n];
    var mem' := if r.out.Some? then mem[p := r.out.value] else mem;
    var start := if s.mode == Between && r.mode != Between then p else s.start;
    NextFacts(s.mode, before[s.inPos]);
    ParseStep(s.mode, cur, input);
    assert input[1..] == before[s.inPos + 1..n];
    Unread(mem, mem', before, p, s.inPos);
    assert mem'[..p] == mem[..p];
    FinishedFrame(mem, mem', av, av, done, p, if r.out.Some? then p + 1 else p);
    if r.mode != Between {
      assert mem[start..p] == cur;
      CurGrows(mem, mem', start, p, cur, if r.out.Some? then r.out.value else -1);
    }
  }

  /** One turn of the loop: one character is read, and at most one is written, at or before it. */
  method Turn(line: array<byte>, argv: array<Option<nat>>, s: Scan,
              ghost before: seq<byte>, ghost n: nat, ghost done: seq<seq<byte>>, ghost cur: seq<byte>)
    returns (s': Scan, ghost done': seq<seq<byte>>, ghost cur': seq<byte>)
    requires LoopOk(line[..], before, n, argv[..], s, done, cur)
    requires s.argc < argv.Length - 1 && s.inPos < n
    modifies line, argv
    ensures LoopOk(line[..], before, n, argv[..], s', done', cur') && s'.inPos == s.inPos + 1
  {
    var c := line[s.inPos];
    ghost var mem, av := line[..], argv[..];
    assert c == mem[s.inPos..][0] == before[s.inPos];
    if Next(s.mode, c).ends {
      EndsTurn(mem, before, n, av, s, done, cur);
    } else {
      StaysTurn(mem, before, n, av, s, done, cur);
    }
    hide LoopOk, Next;
    var mode, charOut, begins, ends := Switch(s.mode, c);
    var start := if begins then s.outPos else s.start;
    if ends {
      argv[s.argc] := Some(start);
    }
    if charOut >= 0 {
      line[s.outPos] := charOut;
    }
    s' := Scan(mode, if ends then s.argc + 1 else s.argc, start,
               if charOut >= 0 then s.outPos + 1 else s.outPos, s.inPos + 1);
    done', cur' := if ends then done + [cur] else done,
                   if ends then [] else if charOut >= 0 then cur + [charOut] else cur;
    assert line[..] == if charOut >= 0 then mem[s.outPos := charOut] else mem;
    assert argv[..] == if ends then av[s.argc := Some(start)] else av;
  }

  /** Behind the loop: the last argument is terminated and entered, and the list is closed. */
  method Close(line: array<byte>, argv: array<Option<nat>>, s: Scan,
               ghost before: seq<byte>, ghost n: nat, ghost done: seq<seq<byte>>, ghost cur: seq<byte>)
    returns (argc: nat)
    requires LoopOk(line[..], before, n, argv[..], s, done, cur)
    requires s.argc < argv.Length - 1 ==> s.inPos == n
    modifies line, argv
    ensures var args := Tokenise(before[..n]);
            && argc == (if |args| < argv.Length then |args| else argv.Length - 1)
            && argv[argc] == None
            && Finished(line[..], argv[..], args[..argc], n + 1)
            && line[n + 1..] == before[n + 1..]
  {
    hide Finished, Tokenise;
    argc := s.argc;
    ghost var mem, av, all := line[..], argv[..], done;
    line[s.outPos] := 0;
    assert line[..][..s.outPos] == mem[..s.outPos];
    FinishedFrame(mem, line[..], av, av, done, s.outPos, s.outPos);
    if s.mode != Between && argc < argv.Length - 1 {
      argv[argc] := Some(s.start);
      assert argv[..][..|done|] == av[..|done|];
      FinishedFrame(line[..], line[..], av, argv[..], done, s.outPos, s.outPos);
      CurGrows(mem, line[..], s.start, s.outPos, cur, -1);
      FinishedOneMore(line[..], argv[..], done, cur, s.start, s.outPos);
      all := done + [cur];
      argc := argc + 1;
    } else {
      FinishedFrame(line[..], line[..], av, av, done, s.outPos, s.outPos + 1);
    }
    av := argv[..];
    argv[argc] := None;
    assert argv[..][..|all|] == av[..|all|];
    FinishedFrame(line[..], line[..], av, argv[..], all, s.outPos + 1, n + 1);
    assert Tokenise(before[..n])[..argc] == all;
    assert line[n + 1..] == mem[s.inPos..][n + 1 - s.inPos..] == before[s.inPos..][n + 1 - s.inPos..];
  }

  /** Splits the terminated line of length `n` in place.  The strings at `argv` are the first
      `argvSize - 1` arguments of the unbounded parse, followed by a null entry; no character is
      overwritten before it is read. */
  method Split(line: array<byte>, ghost n: nat, argv: array<Option<nat>>) returns (argc: nat)
    requires n < line.Length && line[n] == 0 && 0 !in line[..n] && argv.Length >= 1
    modifies line, argv
    ensures var args := old(Tokenise(line[..n]));
            && argc == (if |args| < argv.Length then |args| else argv.Length - 1)
            && argv[argc] == None
            && Finished(line[..], argv[..], args[..argc], n + 1)
            && StandsFor(old(line[..n]), args)
    ensures line[n + 1..] == old(line[n + 1..])
  {
    hide Finished;
    ghost var before := line[..];
    ghost var done: seq<seq<byte>>, cur: seq<byte> := [], [];
    var s := Scan(Between, 0, 0, 0, 0);
    NothingFinished(line[..], argv[..]);
    assert before[0..n] == before[..n] == line[..n];
    TokenisesIff(before[..n], Tokenise(before[..n]));
    hide Tokenise, StandsFor;
    while s.argc < argv.Length - 1 && line[s.inPos] != 0
      invariant LoopOk(line[..], before, n, argv[..], s, done, cur)
      decreases n - s.inPos
    {
      assert line[..][s.inPos..][0] == before[s.inPos];
      s, done, cur := Turn(line, argv, s, before, n, done, cur);
    }
    if s.inPos < n {
      assert line[s.inPos] == line[..][s.inPos..][0] == before[s.inPos] == before[..n][s.inPos];
    }
    argc := Close(line, argv, s, before, n, done, cur);
  }

  /** The round trip through the code: a quoted line is split, in place, into the arguments it was made of. */
  method SplitQuoted(args: seq<seq<byte>>, line: array<byte>, argv: array<Option<nat>>) returns (argc: nat)
    requires forall i :: 0 <= i < |args| ==> 0 !in args[i]
    requires line.Length == |Join(args)| + 1 && line[..line.Length - 1] == Join(args) && line[line.Length - 1] == 0
    requires argv.Length >= 1
    modifies line, argv
    ensures argc == (if |args| < argv.Length then |args| else argv.Length - 1)
    ensures argv[argc] == None && Finished(line[..], argv[..], args[..argc], line.Length)
  {
    hide Join, Tokenise, Finished;
    JoinHasNoNul(args);
    QuotedLineRoundTrip(args);
    argc := Split(line, line.Length - 1, argv);
  }

  /** The same for words, however many spaces stand between them. */
  method SplitSpread(words: seq<seq<byte>>, gaps: seq<nat>, line: array<byte>, argv: array<Option<nat>>)
    returns (argc: nat)
    requires Apart(words, gaps) && forall i :: 0 <= i < |words| ==> 0 !in words[i]
    requires line.Length == |Spread(words, gaps)| + 1 && line[..line.Length - 1] == Spread(words, gaps)
    requires line[line.Length - 1] == 0 && argv.Length >= 1
    modifies line, argv
    ensures argc == (if |words| < argv.Length then |words| else argv.Length - 1)
    ensures argv[argc] == None && Finished(line[..], argv[..], words[..argc], line.Length)
  {
    SpreadHasNoNul(words, gaps);
    hide Spread, Tokenise, Finished, Apart, StandsFor;
    SpreadRoundTrip(words, gaps);
    argc := Split(line, line.Length - 1, argv);
  }

  lemma ParseStep(m: Mode, cur: seq<byte>, input: seq<byte>)
    requires input != []
    ensures var r := Next(m, input[0]);
            Parse(m, cur, input) ==
            if r.ends then [cur] + Parse(Between, [], input[1..])
            else Parse(r.mode, if r.out.Some? then cur + [r.out.value] else cur, input[1..])
  {
  }

  /** Writing the output character at `p` extends the current argument, and nothing below `p` changes. */
  lemma CurGrows(mem: seq<byte>, mem': seq<byte>, start: nat, p: nat, cur: seq<byte>, charOut: int)
    requires start <= p <= |mem| == |mem'| && mem[start..p] == cur && mem'[..p] == mem[..p]
    requires charOut >= 0 ==> charOut < 256 && p < |mem'| && mem'[p] == charOut
    ensures mem'[start..p] == cur
    ensures charOut >= 0 ==> mem'[start..p + 1] == cur + [charOut]
  {
  }

  lemma NothingFinished(mem: seq<byte>, argv: seq<Option<nat>>)
    ensures Finished(mem, argv, [], 0)
  {
  }
}
