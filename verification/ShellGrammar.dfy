/**
 The command language of the shell (sh.c) on tokens: the grammar that the recursive
 descent parser follows, a printer, and the proof that parsing undoes printing.
 T is what a word is recorded as: text, or a pair of pointers into the line.
 */
module ShellGrammar {

  const MAXARGS: nat := 10

  datatype Cmd<T> =
    | Exec(args: seq<T>)
    | Redir(cmd: Cmd<T>, file: T, out: bool)   // out: O_WRONLY|O_CREATE on 1, else O_RDONLY on 0
    | Pipe(left: Cmd<T>, right: Cmd<T>)
    | List(left: Cmd<T>, right: Cmd<T>)
    | Back(cmd: Cmd<T>)

  /** Append is ">>", which the shell treats as ">". */
  datatype Token<T> = Word(w: T) | Sym(c: char) | Append

  datatype Redirection<T> = Redirection(file: T, out: bool)

  datatype Result<T> = Ok(cmd: Cmd<T>, rest: seq<Token<T>>) | Err

  datatype RedirResult<T> = RedirOk(rs: seq<Redirection<T>>, rest: seq<Token<T>>) | RedirErr

  predicate HeadIn<T>(ts: seq<Token<T>>, syms: string) {
    ts != [] && ts[0].Sym? && ts[0].c in syms
  }

  /** peek(ps, es, "<>") */
  predicate HeadRedirects<T>(ts: seq<Token<T>>) {
    HeadIn(ts, "<>") || (ts != [] && ts[0].Append?)
  }

  /** cmd inside its redirections, the first one innermost. */
  function Wrap<T>(cmd: Cmd<T>, rs: seq<Redirection<T>>): (r: Cmd<T>) {
    if rs == [] then cmd
    else Redir(Wrap(cmd, rs[..|rs| - 1]), rs[|rs| - 1].file, rs[|rs| - 1].out)
  }

  // The grammar.

  function PRedirs<T>(rs: seq<Redirection<T>>, ts: seq<Token<T>>): (r: RedirResult<T>)
    ensures r.RedirOk? ==> |r.rest| <= |ts|
    decreases |ts|
  {
    if !HeadRedirects(ts) then RedirOk(rs, ts)
    else if |ts| < 2 || !ts[1].Word? then RedirErr
    else PRedirs(rs + [Redirection(ts[1].w, ts[0] != Sym('<'))], ts[2..])
  }

  /** The loop of parseexec: words, each followed by redirections. */
  function PArgs<T>(args: seq<T>, rs: seq<Redirection<T>>, ts: seq<Token<T>>): (r: Result<T>)
    ensures r.Ok? ==> |r.rest| <= |ts|
    decreases |ts|
  {
    if ts == [] || HeadIn(ts, "|)&;") then Ok(Wrap(Exec(args), rs), ts)
    else if !ts[0].Word? then Err
    else if |args| + 1 >= MAXARGS then Err
    else
      match PRedirs(rs, ts[1..])
      case RedirErr => Err
      case RedirOk(rs', ts') => PArgs(args + [ts[0].w], rs', ts')
  }

  function PExec<T>(ts: seq<Token<T>>): (r: Result<T>)
    ensures r.Ok? ==> |r.rest| <= |ts|
    decreases |ts|, 1
  {
    if HeadIn(ts, "(") then PBlock(ts)
    else
      match PRedirs([], ts)
      case RedirErr => Err
      case RedirOk(rs, ts') => PArgs([], rs, ts')
  }

  function PBlock<T>(ts: seq<Token<T>>): (r: Result<T>)
    requires HeadIn(ts, "(")
    ensures r.Ok? ==> |r.rest| <= |ts|
    decreases |ts|, 0
  {
    match PLine(ts[1..])
    case Err => Err
    case Ok(cmd, rest) =>
      if !HeadIn(rest, ")") then Err
      else
        match PRedirs([], rest[1..])
        case RedirErr => Err
        case RedirOk(rs, rest') => Ok(Wrap(cmd, rs), rest')
  }

  function PPipe<T>(ts: seq<Token<T>>): (r: Result<T>)
    ensures r.Ok? ==> |r.rest| <= |ts|
    decreases |ts|, 2
  {
    match PExec(ts)
    case Err => Err
    case Ok(left, rest) =>
      if !HeadIn(rest, "|") then Ok(left, rest)
      else
        match PPipe(rest[1..])
        case Err => Err
        case Ok(right, rest') => Ok(Pipe(left, right), rest')
  }

  /** The loop of parseline over '&'. */
  function PBacks<T>(cmd: Cmd<T>, ts: seq<Token<T>>): (r: Result<T>)
    ensures r.Ok? && |r.rest| <= |ts|
    decreases |ts|
  {
    if HeadIn(ts, "&") then PBacks(Back(cmd), ts[1..]) else Ok(cmd, ts)
  }

  function PLine<T>(ts: seq<Token<T>>): (r: Result<T>)
    ensures r.Ok? ==> |r.rest| <= |ts|
    decreases |ts|, 3
  {
    match PPipe(ts)
    case Err => Err
    case Ok(cmd, rest) =>
      var b := PBacks(cmd, rest);
      if !HeadIn(b.rest, ";") then b
      else
        match PLine(b.rest[1..])
        case Err => Err
        case Ok(right, rest') => Ok(List(b.cmd, right), rest')
  }

  // The printer, on tokens.  A level says where a command stands: 0 on a line, 1 before
  // '&' or ';', 2 right of '|', 3 left of '|' or under a redirection.

  function Loosest<T>(c: Cmd<T>): (level: nat) {
    match c
    case List(_, _) => 0
    case Back(_) => 1
    case Pipe(_, _) => 2
    case _ => 3
  }

  function Words<T>(args: seq<T>): (ts: seq<Token<T>>)
    ensures |ts| == |args|
  {
    if args == [] then [] else [Word(args[0])] + Words(args[1..])
  }

  function Toks<T>(c: Cmd<T>, level: nat): (ts: seq<Token<T>>)
    requires level <= 3
    decreases c, level
  {
    if Loosest(c) < level then [Sym('(')] + Toks(c, 0) + [Sym(')')]
    else
      match c
      case Exec(args) => Words(args)
      case Redir(d, file, out) => Toks(d, 3) + [Sym(if out then '>' else '<'), Word(file)]
      case Pipe(l, r) => Toks(l, 3) + [Sym('|')] + Toks(r, 2)
      case Back(d) => Toks(d, 1) + [Sym('&')]
      case List(l, r) => Toks(l, 1) + [Sym(';')] + Toks(r, 0)
  }

  /** parseexec accepts fewer than MAXARGS words. */
  ghost predicate WellFormed<T>(c: Cmd<T>) {
    match c
    case Exec(args) => |args| < MAXARGS
    case Redir(d, _, _) => WellFormed(d)
    case Pipe(l, r) => WellFormed(l) && WellFormed(r)
    case List(l, r) => WellFormed(l) && WellFormed(r)
    case Back(d) => WellFormed(d)
  }

  // Parsing what was printed.

  /** What may follow a command at a level without being read as part of it. */
  ghost predicate Follows<T>(rest: seq<Token<T>>, level: nat) {
    rest == [] ||
    HeadIn(rest, if level == 3 then "|)&;" else if level == 2 then ")&;" else if level == 1 then ";)" else ")")
  }

  function RedirToks<T>(rs: seq<Redirection<T>>): (ts: seq<Token<T>>) {
    if rs == [] then []
    else [Sym(if rs[0].out then '>' else '<'), Word(rs[0].file)] + RedirToks(rs[1..])
  }

  lemma {:induction false} RedirsParse<T>(before: seq<Redirection<T>>, rs: seq<Redirection<T>>, rest: seq<Token<T>>)
    requires !HeadRedirects(rest)
    ensures PRedirs(before, RedirToks(rs) + rest) == RedirOk(before + rs, rest)
    decreases |rs|
  {
    var ts := RedirToks(rs) + rest;
    if rs == [] {
      assert ts == rest && before + rs == before;
    } else {
      assert ts[2..] == RedirToks(rs[1..]) + rest;
      RedirsParse(before + [rs[0]], rs[1..], rest);
      assert before + [rs[0]] + rs[1..] == before + rs;
      assert Redirection(ts[1].w, ts[0] != Sym('<')) == rs[0];
    }
  }

  lemma {:induction false} NoRedirs<T>(rs: seq<Redirection<T>>, ts: seq<Token<T>>)
    requires !HeadRedirects(ts)
    ensures PRedirs(rs, ts) == RedirOk(rs, ts)
  {
  }

  lemma {:induction false} ArgsStop<T>(args: seq<T>, rs: seq<Redirection<T>>, rest: seq<Token<T>>)
    requires Follows(rest, 3)
    ensures PArgs(args, rs, rest) == Ok(Wrap(Exec(args), rs), rest)
  {
  }

  lemma {:induction false} ArgsStep<T>(args: seq<T>, rs: seq<Redirection<T>>, ts: seq<Token<T>>)
    requires ts != [] && ts[0].Word? && |args| + 1 < MAXARGS && PRedirs(rs, ts[1..]).RedirOk?
    ensures var r := PRedirs(rs, ts[1..]); PArgs(args, rs, ts) == PArgs(args + [ts[0].w], r.rs, r.rest)
  {
    hide PRedirs, Wrap;
  }

  /** Words, then redirections. */
  lemma {:induction false} ArgsParse<T>(done: seq<T>, args: seq<T>, rs: seq<Redirection<T>>, rest: seq<Token<T>>)
    requires |done| + |args| < MAXARGS && Follows(rest, 3) && args != []
    ensures PArgs(done, [], Words(args) + RedirToks(rs) + rest) == Ok(Wrap(Exec(done + args), rs), rest)
    decreases |args|
  {
    hide Wrap, RedirToks, PArgs, PRedirs, Words, HeadRedirects;
    var ts := Words(args) + RedirToks(rs) + rest;
    var more := Words(args[1..]) + RedirToks(rs) + rest;
    WordsThen(args, RedirToks(rs), rest);
    if |args| == 1 {
      LastWord(args, RedirToks(rs), rest);
      Separator(rest);
      RedirsParse([], rs, rest);
      assert [] + rs == rs;
      ArgsStep(done, [], ts);
      ArgsStop(done + args, rs, rest);
    } else {
      WordsThen(args[1..], RedirToks(rs), rest);
      WordFirst(more);
      NoRedirs([], more);
      ArgsStep(done, [], ts);
      ArgsParse(done + [args[0]], args[1..], rs, rest);
      assert done + [args[0]] + args[1..] == done + args;
    }
  }

  lemma Separator<T>(rest: seq<Token<T>>)
    requires Follows(rest, 3)
    ensures !HeadRedirects(rest)
  {
  }

  lemma WordFirst<T>(ts: seq<Token<T>>)
    requires ts != [] && ts[0].Word?
    ensures !HeadRedirects(ts)
  {
  }

  lemma {:induction false} WordsThen<T>(args: seq<T>, a: seq<Token<T>>, b: seq<Token<T>>)
    requires args != []
    ensures var ts := Words(args) + a + b;
            ts != [] && ts[0] == Word(args[0]) && ts[1..] == Words(args[1..]) + a + b
  {
  }

  lemma LastWord<T>(args: seq<T>, a: seq<Token<T>>, b: seq<Token<T>>)
    requires |args| == 1
    ensures args == [args[0]] && Words(args[1..]) + a + b == a + b
  {
  }

  lemma {:induction false} ExecPlain<T>(ts: seq<Token<T>>)
    requires !HeadIn(ts, "(") && PRedirs([], ts).RedirOk?
    ensures var r := PRedirs([], ts); PExec(ts) == PArgs([], r.rs, r.rest)
  {
    hide PRedirs, PArgs;
  }

  lemma {:induction false} ExecParse<T>(args: seq<T>, rs: seq<Redirection<T>>, rest: seq<Token<T>>)
    requires |args| < MAXARGS && Follows(rest, 3)
    ensures PExec(Words(args) + RedirToks(rs) + rest) == Ok(Wrap(Exec(args), rs), rest)
  {
    hide PBlock, PArgs, PExec, PRedirs, RedirToks, Wrap;
    var ts := Words(args) + RedirToks(rs) + rest;
    if args == [] {
      assert ts == RedirToks(rs) + rest;
      BareRedirsParse(rs, rest);
    } else {
      assert ts[0] == Word(args[0]);
      NoRedirs([], ts);
      ExecPlain(ts);
      ArgsParse([], args, rs, rest);
      assert [] + args == args;
    }
  }

  lemma {:induction false} BareRedirsParse<T>(rs: seq<Redirection<T>>, rest: seq<Token<T>>)
    requires Follows(rest, 3)
    ensures PExec(RedirToks(rs) + rest) == Ok(Wrap(Exec([]), rs), rest)
  {
    hide PBlock, PArgs, PExec, PRedirs, Wrap;
    var ts := RedirToks(rs) + rest;
    RedirsParse([], rs, rest);
    assert [] + rs == rs;
    assert !HeadIn(ts, "(");
    ExecPlain(ts);
    ArgsStop([], rs, rest);
  }

  /** A command under its redirections: the innermost one, and the redirections around it. */
  function Core<T>(c: Cmd<T>): (d: Cmd<T>)
    ensures !d.Redir?
  {
    if c.Redir? then Core(c.cmd) else c
  }

  function Redirs<T>(c: Cmd<T>): (rs: seq<Redirection<T>>) {
    if c.Redir? then Redirs(c.cmd) + [Redirection(c.file, c.out)] else []
  }

  lemma {:induction false} RedirToksAppend<T>(rs: seq<Redirection<T>>, r: Redirection<T>)
    ensures RedirToks(rs + [r]) == RedirToks(rs) + [Sym(if r.out then '>' else '<'), Word(r.file)]
  {
    var all := rs + [r];
    var two := [Sym(if r.out then '>' else '<'), Word(r.file)];
    if rs == [] {
      assert all[0] == r && all[1..] == [];
      assert RedirToks(all) == two + RedirToks([]);
    } else {
      RedirToksAppend(rs[1..], r);
      assert all[1..] == rs[1..] + [r] && all[0] == rs[0];
      var first := [Sym(if rs[0].out then '>' else '<'), Word(rs[0].file)];
      assert RedirToks(all) == first + (RedirToks(rs[1..]) + two);
    }
  }

  /** Printing at the tightest level prints the core and then the redirections. */
  lemma {:induction false} ToksSplit<T>(c: Cmd<T>)
    ensures Toks(c, 3) == Toks(Core(c), 3) + RedirToks(Redirs(c)) && Wrap(Core(c), Redirs(c)) == c
    ensures WellFormed(c) ==> WellFormed(Core(c))
  {
    if c.Redir? {
      ToksSplit(c.cmd);
      var rs, r := Redirs(c.cmd), Redirection(c.file, c.out);
      RedirToksAppend(rs, r);
      assert (rs + [r])[..|rs|] == rs;
      assert Toks(c, 3) == Toks(c.cmd, 3) + [Sym(if c.out then '>' else '<'), Word(c.file)];
    } else {
      assert Toks(c, 3) + [] == Toks(c, 3);
    }
  }

  /** Orders the round trip lemmas: a level that needs parentheses comes before level 0. */
  function Rank<T>(c: Cmd<T>, level: nat): (r: int) {
    if Loosest(c) < level then 20 - level else 10 - level
  }

  lemma {:induction false} RoundTripExec<T>(c: Cmd<T>, rest: seq<Token<T>>)
    requires WellFormed(c) && Follows(rest, 3)
    ensures PExec(Toks(c, 3) + rest) == Ok(c, rest)
    decreases c, Rank(c, 3)
  {
    var d, rs := Core(c), Redirs(c);
    ToksSplit(c);
    CoreSmaller(c);
    hide PLine, PRedirs, PExec, PArgs, RedirToks, Wrap;
    if d.Exec? {
      assert Toks(d, 3) == Words(d.args);
      hide Toks, Words;
      ExecParse(d.args, rs, rest);
    } else {
      assert Toks(d, 3) == [Sym('(')] + Toks(d, 0) + [Sym(')')];
      hide Toks;
      var after := [Sym(')')] + RedirToks(rs) + rest;
      assert Toks(c, 3) + rest == [Sym('(')] + (Toks(d, 0) + after);
      RoundTripLine(d, after);
      RedirsParse([], rs, rest);
      BlockParse(d, rs, rest);
    }
  }

  lemma {:induction false} CoreSmaller<T>(c: Cmd<T>)
    ensures Core(c) == c || Core(c) < c
  {
    if c.Redir? {
      CoreSmaller(c.cmd);
    }
  }

  lemma {:induction false} BlockParse<T>(d: Cmd<T>, rs: seq<Redirection<T>>, rest: seq<Token<T>>)
    requires PLine(Toks(d, 0) + ([Sym(')')] + RedirToks(rs) + rest)) == Ok(d, [Sym(')')] + RedirToks(rs) + rest)
    requires PRedirs([], RedirToks(rs) + rest) == RedirOk([] + rs, rest)
    ensures PExec([Sym('(')] + (Toks(d, 0) + ([Sym(')')] + RedirToks(rs) + rest))) == Ok(Wrap(d, rs), rest)
  {
    hide PLine, PRedirs, Toks, RedirToks, Wrap, PArgs;
    var after := [Sym(')')] + RedirToks(rs) + rest;
    var ts := [Sym('(')] + (Toks(d, 0) + after);
    assert ts[1..] == Toks(d, 0) + after;
    assert after[1..] == RedirToks(rs) + rest;
    assert [] + rs == rs;
  }

  lemma {:induction false} RoundTripPipe<T>(c: Cmd<T>, rest: seq<Token<T>>)
    requires WellFormed(c) && Follows(rest, 2)
    ensures PPipe(Toks(c, 2) + rest) == Ok(c, rest)
    decreases c, Rank(c, 2)
  {
    if c.Pipe? {
      var after := [Sym('|')] + (Toks(c.right, 2) + rest);
      assert Toks(c, 2) + rest == Toks(c.left, 3) + after;
      RoundTripExec(c.left, after);
      assert after[1..] == Toks(c.right, 2) + rest;
      RoundTripPipe(c.right, rest);
    } else {
      assert Toks(c, 2) == Toks(c, 3);
      RoundTripExec(c, rest);
    }
  }

  /** parsepipe and the '&' loop of parseline, on a command printed before '&' or ';'. */
  lemma {:induction false} RoundTripBack<T>(c: Cmd<T>, rest: seq<Token<T>>)
    requires WellFormed(c) && Follows(rest, 2)
    ensures var p := PPipe(Toks(c, 1) + rest); p.Ok? && PBacks(p.cmd, p.rest) == PBacks(c, rest)
    decreases c, Rank(c, 1)
  {
    if c.Back? {
      var after := [Sym('&')] + rest;
      assert Toks(c, 1) + rest == Toks(c.cmd, 1) + after;
      RoundTripBack(c.cmd, after);
      assert after[1..] == rest;
    } else {
      assert Toks(c, 1) == Toks(c, 2);
      RoundTripPipe(c, rest);
    }
  }

  lemma {:induction false} RoundTripLine<T>(c: Cmd<T>, rest: seq<Token<T>>)
    requires WellFormed(c) && Follows(rest, 0)
    ensures PLine(Toks(c, 0) + rest) == Ok(c, rest)
    decreases c, Rank(c, 0)
  {
    if c.List? {
      var after := [Sym(';')] + (Toks(c.right, 0) + rest);
      assert Toks(c, 0) + rest == Toks(c.left, 1) + after;
      RoundTripBack(c.left, after);
      assert after[1..] == Toks(c.right, 0) + rest;
      RoundTripLine(c.right, rest);
    } else {
      assert Toks(c, 0) == Toks(c, 1);
      RoundTripBack(c, rest);
    }
  }

  // What the parser builds from any tokens.

  ghost predicate WordsIn<T>(ts: seq<Token<T>>, ws: set<T>) {
    forall i | 0 <= i < |ts| && ts[i].Word? :: ts[i].w in ws
  }

  ghost predicate RedirsIn<T>(rs: seq<Redirection<T>>, ws: set<T>) {
    forall i | 0 <= i < |rs| :: rs[i].file in ws
  }

  /** Every word the tree records is in ws. */
  ghost predicate RecordsIn<T>(c: Cmd<T>, ws: set<T>) {
    match c
    case Exec(args) => forall i | 0 <= i < |args| :: args[i] in ws
    case Redir(d, file, _) => RecordsIn(d, ws) && file in ws
    case Pipe(l, r) => RecordsIn(l, ws) && RecordsIn(r, ws)
    case List(l, r) => RecordsIn(l, ws) && RecordsIn(r, ws)
    case Back(d) => RecordsIn(d, ws)
  }

  ghost predicate BuiltFrom<T>(r: Result<T>, ws: set<T>) {
    r.Ok? ==> WellFormed(r.cmd) && RecordsIn(r.cmd, ws) && WordsIn(r.rest, ws)
  }

  lemma {:induction false} WrapBuilt<T>(c: Cmd<T>, rs: seq<Redirection<T>>, ws: set<T>)
    requires WellFormed(c) && RecordsIn(c, ws) && RedirsIn(rs, ws)
    ensures WellFormed(Wrap(c, rs)) && RecordsIn(Wrap(c, rs), ws)
    decreases |rs|
  {
    if rs != [] {
      WrapBuilt(c, rs[..|rs| - 1], ws);
    }
  }

  lemma {:induction false} RedirsBuilt<T>(rs: seq<Redirection<T>>, ts: seq<Token<T>>, ws: set<T>)
    requires RedirsIn(rs, ws) && WordsIn(ts, ws)
    ensures var r := PRedirs(rs, ts); r.RedirOk? ==> RedirsIn(r.rs, ws) && WordsIn(r.rest, ws)
    decreases |ts|
  {
    if HeadRedirects(ts) && |ts| >= 2 && ts[1].Word? {
      RedirsBuilt(rs + [Redirection(ts[1].w, ts[0] != Sym('<'))], ts[2..], ws);
    }
  }

  lemma {:induction false} ArgsBuilt<T>(args: seq<T>, rs: seq<Redirection<T>>, ts: seq<Token<T>>, ws: set<T>)
    requires |args| < MAXARGS && RecordsIn(Exec(args), ws) && RedirsIn(rs, ws) && WordsIn(ts, ws)
    ensures BuiltFrom(PArgs(args, rs, ts), ws)
    decreases |ts|
  {
    if ts == [] || HeadIn(ts, "|)&;") {
      WrapBuilt(Exec(args), rs, ws);
    } else if ts[0].Word? && |args| + 1 < MAXARGS {
      RedirsBuilt(rs, ts[1..], ws);
      var r := PRedirs(rs, ts[1..]);
      if r.RedirOk? {
        ArgsBuilt(args + [ts[0].w], r.rs, r.rest, ws);
      }
    }
  }

  lemma {:induction false} ExecBuilt<T>(ts: seq<Token<T>>, ws: set<T>)
    requires WordsIn(ts, ws)
    ensures BuiltFrom(PExec(ts), ws)
    decreases |ts|, 1
  {
    if HeadIn(ts, "(") {
      LineBuilt(ts[1..], ws);
      var r := PLine(ts[1..]);
      if r.Ok? && HeadIn(r.rest, ")") {
        RedirsBuilt([], r.rest[1..], ws);
        var q := PRedirs([], r.rest[1..]);
        if q.RedirOk? {
          WrapBuilt(r.cmd, q.rs, ws);
        }
      }
    } else {
      RedirsBuilt([], ts, ws);
      var q := PRedirs([], ts);
      if q.RedirOk? {
        ArgsBuilt([], q.rs, q.rest, ws);
      }
    }
  }

  lemma {:induction false} PipeBuilt<T>(ts: seq<Token<T>>, ws: set<T>)
    requires WordsIn(ts, ws)
    ensures BuiltFrom(PPipe(ts), ws)
    decreases |ts|, 2
  {
    ExecBuilt(ts, ws);
    var r := PExec(ts);
    if r.Ok? && HeadIn(r.rest, "|") {
      PipeBuilt(r.rest[1..], ws);
    }
  }

  lemma {:induction false} BacksBuilt<T>(c: Cmd<T>, ts: seq<Token<T>>, ws: set<T>)
    requires WellFormed(c) && RecordsIn(c, ws) && WordsIn(ts, ws)
    ensures BuiltFrom(PBacks(c, ts), ws)
    decreases |ts|
  {
    if HeadIn(ts, "&") {
      BacksBuilt(Back(c), ts[1..], ws);
    }
  }

  /** Every tree the parser accepts is one the printer can print, and records words of the line only. */
  lemma {:induction false} LineBuilt<T>(ts: seq<Token<T>>, ws: set<T>)
    requires WordsIn(ts, ws)
    ensures BuiltFrom(PLine(ts), ws)
    decreases |ts|, 3
  {
    PipeBuilt(ts, ws);
    var r := PPipe(ts);
    if r.Ok? {
      BacksBuilt(r.cmd, r.rest, ws);
      var b := PBacks(r.cmd, r.rest);
      if HeadIn(b.rest, ";") {
        LineBuilt(b.rest[1..], ws);
      }
    }
  }

  /** Parsing, printing and parsing again gives the first tree. */
  lemma {:induction false} ReparseAccepted<T>(ts: seq<Token<T>>)
    requires PLine(ts).Ok?
    ensures PLine(Toks(PLine(ts).cmd, 0)) == Ok(PLine(ts).cmd, [])
  {
    var ws := set i | 0 <= i < |ts| && ts[i].Word? :: ts[i].w;
    LineBuilt(ts, ws);
    var c := PLine(ts).cmd;
    RoundTripLine(c, []);
    assert Toks(c, 0) + [] == Toks(c, 0);
  }
}
