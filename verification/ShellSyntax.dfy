/**
 The command language of the shell declaratively: which token sequences stand for which
 command, said without any order of reading.  The parser accepts exactly those.
 */
module ShellSyntax {
  import opened ShellGrammar

  ghost predicate IsRedir<T>(a: Token<T>, b: Token<T>, r: Redirection<T>) {
    b == Word(r.file) && if r.out then a == Sym('>') || a == Append else a == Sym('<')
  }

  /** Words and redirections in any order; the words are `args`, the redirections `rs`. */
  ghost predicate Simple<T>(ts: seq<Token<T>>, args: seq<T>, rs: seq<Redirection<T>>)
    decreases |ts|
  {
    if ts == [] then args == [] && rs == []
    else if ts[0].Word? then args != [] && args[0] == ts[0].w && Simple(ts[1..], args[1..], rs)
    else |ts| >= 2 && rs != [] && IsRedir(ts[0], ts[1], rs[0]) && Simple(ts[2..], args, rs[1..])
  }

  /** A line in parentheses, then redirections. */
  ghost predicate Block<T(!new)>(ts: seq<Token<T>>, i: nat, d: Cmd<T>, rs: seq<Redirection<T>>)
    decreases |ts|, 0
  {
    0 < i < |ts| && ts[0] == Sym('(') && ts[i] == Sym(')') && Line(ts[1..i], d) && Simple(ts[i + 1..], [], rs)
  }

  /** A simple command of fewer than MAXARGS words, or a block. */
  ghost predicate Unit<T(!new)>(ts: seq<Token<T>>, c: Cmd<T>)
    decreases |ts|, 1
  {
    || (exists args, rs :: Simple(ts, args, rs) && |args| < MAXARGS && c == Wrap(Exec(args), rs))
    || (exists i: nat, d, rs :: Block(ts, i, d, rs) && c == Wrap(d, rs))
  }

  /** Units between '|', grouped to the right. */
  ghost predicate Pipeline<T(!new)>(ts: seq<Token<T>>, c: Cmd<T>)
    decreases |ts|, 2
  {
    Unit(ts, c) || exists i: nat :: Piped(ts, i, c)
  }

  ghost predicate Piped<T(!new)>(ts: seq<Token<T>>, i: nat, c: Cmd<T>)
    decreases |ts|, 1
  {
    i < |ts| && ts[i] == Sym('|') && c.Pipe? && Unit(ts[..i], c.left) && Pipeline(ts[i + 1..], c.right)
  }

  /** A pipeline and any number of '&'. */
  ghost predicate Job<T(!new)>(ts: seq<Token<T>>, c: Cmd<T>)
    decreases |ts|, 3
  {
    Pipeline(ts, c) || (ts != [] && ts[|ts| - 1] == Sym('&') && c.Back? && Job(ts[..|ts| - 1], c.cmd))
  }

  /** Jobs between ';', grouped to the right. */
  ghost predicate Line<T(!new)>(ts: seq<Token<T>>, c: Cmd<T>)
    decreases |ts|, 4
  {
    Job(ts, c) || exists i: nat :: Listed(ts, i, c)
  }

  ghost predicate Listed<T(!new)>(ts: seq<Token<T>>, i: nat, c: Cmd<T>)
    decreases |ts|, 3
  {
    i < |ts| && ts[i] == Sym(';') && c.List? && Job(ts[..i], c.left) && Line(ts[i + 1..], c.right)
  }

  // Whatever is in the language is parsed.

  lemma {:induction false} RedirStep<T>(before: seq<Redirection<T>>, ts: seq<Token<T>>, r: Redirection<T>)
    requires |ts| >= 2 && IsRedir(ts[0], ts[1], r)
    ensures PRedirs(before, ts) == PRedirs(before + [r], ts[2..])
  {
  }

  lemma {:induction false} SimpleFirst<T>(ts: seq<Token<T>>, args: seq<T>, rs: seq<Redirection<T>>)
    requires Simple(ts, args, rs) && ts != [] && !ts[0].Word?
    ensures |ts| >= 2 && rs != [] && IsRedir(ts[0], ts[1], rs[0]) && Simple(ts[2..], args, rs[1..])
  {
  }

  lemma {:induction false} LeadingRedirs<T>(before: seq<Redirection<T>>, ts: seq<Token<T>>, args: seq<T>,
                                            rs: seq<Redirection<T>>, rest: seq<Token<T>>) returns (n: nat)
    requires Simple(ts, args, rs) && Follows(rest, 3)
    ensures n <= |rs| && 2 * n <= |ts| && Simple(ts[2 * n..], args, rs[n..]) && (2 * n < |ts| ==> ts[2 * n].Word?)
    ensures PRedirs(before, ts + rest) == RedirOk(before + rs[..n], ts[2 * n..] + rest)
    decreases |ts|
  {
    hide PRedirs, Simple, IsRedir;
    if ts == [] || ts[0].Word? {
      n := 0;
      assert ts[0..] == ts && rs[0..] == rs && before + rs[..0] == before;
      assert ts == [] ==> ts + rest == rest;
      NoRedirs(before, ts + rest);
    } else {
      SimpleFirst(ts, args, rs);
      var r := rs[0];
      var m := LeadingRedirs(before + [r], ts[2..], args, rs[1..], rest);
      n := m + 1;
      assert ts[2..][2 * m..] == ts[2 * n..] && rs[1..][m..] == rs[n..];
      assert before + [r] + rs[1..][..m] == before + rs[..n];
      assert (ts + rest)[2..] == ts[2..] + rest && (ts + rest)[0] == ts[0] && (ts + rest)[1] == ts[1];
      RedirStep(before, ts + rest, r);
    }
  }

  lemma {:induction false} SimpleParsed<T>(done: seq<T>, before: seq<Redirection<T>>, ts: seq<Token<T>>, args: seq<T>,
                                           rs: seq<Redirection<T>>, rest: seq<Token<T>>)
    requires Simple(ts, args, rs) && Follows(rest, 3) && |done| + |args| < MAXARGS && (ts != [] ==> ts[0].Word?)
    ensures PArgs(done, before, ts + rest) == Ok(Wrap(Exec(done + args), before + rs), rest)
    decreases |ts|
  {
    hide PArgs, PRedirs, Wrap;
    if ts == [] {
      assert ts + rest == rest && done + args == done && before + rs == before;
      ArgsStop(done, before, rest);
    } else {
      var n := LeadingRedirs(before, ts[1..], args[1..], rs, rest);
      assert (ts + rest)[1..] == ts[1..] + rest && (ts + rest)[0] == ts[0];
      ArgsStep(done, before, ts + rest);
      SimpleParsed(done + [args[0]], before + rs[..n], ts[1..][2 * n..], args[1..], rs[n..], rest);
      assert done + [args[0]] + args[1..] == done + args && before + rs[..n] + rs[n..] == before + rs;
    }
  }

  lemma {:induction false} SimpleUnit<T>(ts: seq<Token<T>>, args: seq<T>, rs: seq<Redirection<T>>, rest: seq<Token<T>>)
    requires Simple(ts, args, rs) && |args| < MAXARGS && Follows(rest, 3)
    ensures PExec(ts + rest) == Ok(Wrap(Exec(args), rs), rest)
  {
    hide PArgs, PRedirs, PExec, Wrap;
    var n := LeadingRedirs([], ts, args, rs, rest);
    SimpleHead(ts, args, rs, rest);
    ExecPlain(ts + rest);
    SimpleParsed([], rs[..n], ts[2 * n..], args, rs[n..], rest);
    assert [] + args == args && [] + rs[..n] == rs[..n] && rs[..n] + rs[n..] == rs;
  }

  lemma {:induction false} SimpleHead<T>(ts: seq<Token<T>>, args: seq<T>, rs: seq<Redirection<T>>, rest: seq<Token<T>>)
    requires Simple(ts, args, rs) && Follows(rest, 3)
    ensures !HeadIn(ts + rest, "(")
  {
    assert ts != [] ==> (ts + rest)[0] == ts[0];
    assert ts == [] ==> ts + rest == rest;
  }

  lemma {:induction false} NoWords<T>(ts: seq<Token<T>>, rs: seq<Redirection<T>>)
    requires Simple(ts, [], rs) && (ts != [] ==> ts[0].Word?)
    ensures ts == [] && rs == []
  {
  }

  lemma {:induction false} RedirsParsed<T>(ts: seq<Token<T>>, rs: seq<Redirection<T>>, rest: seq<Token<T>>)
    requires Simple(ts, [], rs) && Follows(rest, 3)
    ensures PRedirs([], ts + rest) == RedirOk(rs, rest)
  {
    var n := LeadingRedirs([], ts, [], rs, rest);
    NoWords(ts[2 * n..], rs[n..]);
    assert rs[n..] == [] && [] + rs[..n] == rs && [] + rest == rest;
  }

  lemma {:induction false} UnitParsed<T(!new)>(ts: seq<Token<T>>, c: Cmd<T>, rest: seq<Token<T>>)
    requires Unit(ts, c) && Follows(rest, 3)
    ensures PExec(ts + rest) == Ok(c, rest)
    decreases |ts|, 1
  {
    hide PArgs, PRedirs, PExec, Wrap, Line, Simple, PLine;
    if args, rs :| Simple(ts, args, rs) && |args| < MAXARGS && c == Wrap(Exec(args), rs) {
      SimpleUnit(ts, args, rs, rest);
    } else {
      var i: nat, d, rs :| Block(ts, i, d, rs) && c == Wrap(d, rs);
      var inner, after := ts[1..i], ts[i + 1..];
      LineParsed(inner, d, [Sym(')')] + (after + rest));
      RedirsParsed(after, rs, rest);
      assert ts + rest == [Sym('(')] + (inner + ([Sym(')')] + (after + rest)));
      BlockRead(inner + ([Sym(')')] + (after + rest)), after + rest, d, rs, rest);
    }
  }

  lemma {:induction false} BlockRead<T>(inside: seq<Token<T>>, after: seq<Token<T>>, d: Cmd<T>, rs: seq<Redirection<T>>,
                     rest: seq<Token<T>>)
    requires PLine(inside) == Ok(d, [Sym(')')] + after) && PRedirs([], after) == RedirOk(rs, rest)
    ensures PExec([Sym('(')] + inside) == Ok(Wrap(d, rs), rest)
  {
    hide PLine, PRedirs, Wrap, PArgs;
    var ts := [Sym('(')] + inside;
    assert ts[1..] == inside && ([Sym(')')] + after)[1..] == after;
  }

  lemma {:induction false} PipelineParsed<T(!new)>(ts: seq<Token<T>>, c: Cmd<T>, rest: seq<Token<T>>)
    requires Pipeline(ts, c) && Follows(rest, 2)
    ensures PPipe(ts + rest) == Ok(c, rest)
    decreases |ts|, 2
  {
    hide PExec, Unit;
    if Unit(ts, c) {
      UnitParsed(ts, c, rest);
    } else {
      var i: nat :| Piped(ts, i, c);
      var after := [Sym('|')] + (ts[i + 1..] + rest);
      assert ts + rest == ts[..i] + after && after[1..] == ts[i + 1..] + rest;
      UnitParsed(ts[..i], c.left, after);
      PipelineParsed(ts[i + 1..], c.right, rest);
    }
  }

  lemma {:induction false} JobParsed<T(!new)>(ts: seq<Token<T>>, c: Cmd<T>, rest: seq<Token<T>>)
    requires Job(ts, c) && Follows(rest, 2)
    ensures var p := PPipe(ts + rest); p.Ok? && PBacks(p.cmd, p.rest) == PBacks(c, rest)
    decreases |ts|, 3
  {
    hide PPipe, Pipeline;
    if Pipeline(ts, c) {
      PipelineParsed(ts, c, rest);
    } else {
      var n := |ts| - 1;
      var after := [Sym('&')] + rest;
      assert ts + rest == ts[..n] + after && after[1..] == rest;
      JobParsed(ts[..n], c.cmd, after);
    }
  }

  lemma {:induction false} LineParsed<T(!new)>(ts: seq<Token<T>>, c: Cmd<T>, rest: seq<Token<T>>)
    requires Line(ts, c) && Follows(rest, 0)
    ensures PLine(ts + rest) == Ok(c, rest)
    decreases |ts|, 4
  {
    hide PPipe, Job;
    if Job(ts, c) {
      JobParsed(ts, c, rest);
    } else {
      var i: nat :| Listed(ts, i, c);
      var after := [Sym(';')] + (ts[i + 1..] + rest);
      assert ts + rest == ts[..i] + after && after[1..] == ts[i + 1..] + rest;
      JobParsed(ts[..i], c.left, after);
      LineParsed(ts[i + 1..], c.right, rest);
    }
  }

  // Whatever is parsed is in the language.

  lemma Drops<T>(s: seq<T>, a: nat, b: nat)
    requires a + b <= |s|
    ensures s[a..][b..] == s[a + b..] && s[a..][..b] == s[a..a + b]
  {
  }

  lemma Takes<T>(s: seq<T>, a: nat, b: nat, c: nat)
    requires a <= b <= c <= |s|
    ensures s[..c][a..] == s[a..c] && s[..c][a..b] == s[a..b] && s[..c][..b] == s[..b] && s[a..b] + s[b..c] == s[a..c]
    ensures s[..b] + s[b..c] == s[..c]
  {
  }

  lemma {:induction false} ArgsCases<T>(args: seq<T>, rs: seq<Redirection<T>>, ts: seq<Token<T>>)
    requires PArgs(args, rs, ts).Ok?
    ensures ts == [] || HeadIn(ts, "|)&;") ==> PArgs(args, rs, ts) == Ok(Wrap(Exec(args), rs), ts)
    ensures !(ts == [] || HeadIn(ts, "|)&;")) ==> ts[0].Word? && |args| + 1 < MAXARGS && PRedirs(rs, ts[1..]).RedirOk?
  {
    hide PRedirs, Wrap;
  }

  lemma NothingSimple<T>()
    ensures Simple<T>([], [], [])
    ensures forall x: seq<T>, r :: Simple([], x, r) ==> x == [] && r == []
  {
  }

  lemma {:induction false} WordFirstSimple<T>(ts: seq<Token<T>>, args: seq<T>, rs: seq<Redirection<T>>)
    requires ts != [] && ts[0].Word?
    ensures Simple(ts, args, rs) <==> args != [] && args[0] == ts[0].w && Simple(ts[1..], args[1..], rs)
  {
  }

  lemma {:induction false} RedirFirstSimple<T>(ts: seq<Token<T>>, args: seq<T>, rs: seq<Redirection<T>>)
    requires |ts| >= 2 && rs != [] && IsRedir(ts[0], ts[1], rs[0]) && Simple(ts[2..], args, rs[1..])
    ensures Simple(ts, args, rs)
  {
  }

  lemma {:induction false} SimpleConcat<T>(a: seq<Token<T>>, x: seq<T>, r: seq<Redirection<T>>,
                                           b: seq<Token<T>>, y: seq<T>, q: seq<Redirection<T>>)
    requires Simple(a, x, r) && Simple(b, y, q)
    ensures Simple(a + b, x + y, r + q)
    decreases |a|
  {
    hide Simple, IsRedir;
    if a == [] {
      NothingSimple<T>();
      assert a + b == b && x + y == y && r + q == q;
    } else if a[0].Word? {
      WordFirstSimple(a, x, r);
      SimpleConcat(a[1..], x[1..], r, b, y, q);
      assert (a + b)[1..] == a[1..] + b && (x + y)[1..] == x[1..] + y;
      WordFirstSimple(a + b, x + y, r + q);
    } else {
      SimpleFirst(a, x, r);
      SimpleConcat(a[2..], x, r[1..], b, y, q);
      assert (a + b)[2..] == a[2..] + b && (r + q)[1..] == r[1..] + q;
      RedirFirstSimple(a + b, x + y, r + q);
    }
  }

  lemma {:induction false} RedirsSound<T>(before: seq<Redirection<T>>, ts: seq<Token<T>>)
    returns (k: nat, rs: seq<Redirection<T>>)
    requires PRedirs(before, ts).RedirOk?
    ensures k <= |ts| && PRedirs(before, ts) == RedirOk(before + rs, ts[k..]) && Simple(ts[..k], [], rs)
    decreases |ts|
  {
    if !HeadRedirects(ts) {
      k, rs := 0, [];
      assert ts[0..] == ts && before + rs == before;
    } else {
      var r := Redirection(ts[1].w, ts[0] != Sym('<'));
      var j, more := RedirsSound(before + [r], ts[2..]);
      k, rs := j + 2, [r] + more;
      assert ts[2..][j..] == ts[k..] && before + [r] + more == before + rs;
      assert ts[..k][2..] == ts[2..][..j] && rs[1..] == more;
    }
  }

  lemma {:induction false} ArgsSound<T>(args: seq<T>, rs: seq<Redirection<T>>, ts: seq<Token<T>>)
    returns (k: nat, more: seq<T>, others: seq<Redirection<T>>)
    requires PArgs(args, rs, ts).Ok? && |args| < MAXARGS
    ensures k <= |ts| && PArgs(args, rs, ts) == Ok(Wrap(Exec(args + more), rs + others), ts[k..])
    ensures Simple(ts[..k], more, others) && |args + more| < MAXARGS
    decreases |ts|
  {
    hide Wrap, PRedirs, Simple, PArgs;
    ArgsCases(args, rs, ts);
    if ts == [] || HeadIn(ts, "|)&;") {
      NothingSimple<T>();
      k, more, others := 0, [], [];
      assert ts[0..] == ts && ts[..0] == [] && args + more == args && rs + others == rs;
    } else {
      var w := ts[0].w;
      ArgsStep(args, rs, ts);
      var j, new_ := RedirsSound(rs, ts[1..]);
      Drops(ts, 1, j);
      var i, m, o := ArgsSound(args + [w], rs + new_, ts[1 + j..]);
      k, more, others := 1 + j + i, [w] + m, new_ + o;
      Drops(ts, 1 + j, i);
      assert args + [w] + m == args + more && rs + new_ + o == rs + others;
      SimpleConcat(ts[1..1 + j], [], new_, ts[1 + j..k], m, o);
      Takes(ts, 1, 1 + j, k);
      assert [] + m == m && more[1..] == m;
      WordFirstSimple(ts[..k], more, others);
    }
  }

  lemma PlainSound<T(!new)>(ts: seq<Token<T>>) returns (k: nat)
    requires PExec(ts).Ok? && !HeadIn(ts, "(")
    ensures k <= |ts| && PExec(ts).rest == ts[k..] && Unit(ts[..k], PExec(ts).cmd)
  {
    hide Wrap, PRedirs, PArgs, Line;
    var j, rs := RedirsSound([], ts);
    var i, args, others := ArgsSound([], [] + rs, ts[j..]);
    k := j + i;
    Drops(ts, j, i);
    SimpleConcat(ts[..j], [], rs, ts[j..k], args, others);
    Takes(ts, 0, j, k);
    assert [] + args == args && [] + rs == rs;
    assert Simple(ts[..k], args, rs + others);
  }

  lemma {:induction false} ExecSound<T(!new)>(ts: seq<Token<T>>) returns (k: nat)
    requires PExec(ts).Ok?
    ensures k <= |ts| && PExec(ts).rest == ts[k..] && Unit(ts[..k], PExec(ts).cmd)
    decreases |ts|, 1
  {
    hide Wrap, PRedirs, PLine, PExec, PArgs, Simple, Line, Unit;
    if !HeadIn(ts, "(") {
      k := PlainSound(ts);
    } else {
      BlockCases(ts);
      var j := LineSound(ts[1..]);
      Drops(ts, 1, j);
      Drops(ts, 1 + j, 1);
      var i, rs := RedirsSound([], ts[j + 2..]);
      k := j + 2 + i;
      Drops(ts, j + 2, i);
      assert [] + rs == rs;
      BlockUnit(ts, k, j, PLine(ts[1..]).cmd, rs);
    }
  }

  lemma {:induction false} BlockCases<T>(ts: seq<Token<T>>)
    requires PExec(ts).Ok? && HeadIn(ts, "(")
    ensures PLine(ts[1..]).Ok?
    ensures var p := PLine(ts[1..]);
            && HeadIn(p.rest, ")") && PRedirs([], p.rest[1..]).RedirOk?
            && var r := PRedirs([], p.rest[1..]); PExec(ts) == Ok(Wrap(p.cmd, r.rs), r.rest)
  {
    hide PLine, PRedirs, Wrap;
  }

  lemma {:induction false} BlockUnit<T(!new)>(ts: seq<Token<T>>, k: nat, j: nat, d: Cmd<T>, rs: seq<Redirection<T>>)
    requires j + 2 <= k <= |ts| && HeadIn(ts, "(") && HeadIn(ts[j + 1..], ")")
    requires Line(ts[1..j + 1], d) && Simple(ts[j + 2..k], [], rs)
    ensures Unit(ts[..k], Wrap(d, rs))
  {
    hide Line, Simple, Wrap;
    Takes(ts, 1, j + 1, k);
    Takes(ts, j + 2, k, k);
    assert Block(ts[..k], j + 1, d, rs);
  }

  lemma {:induction false} PipeCases<T>(ts: seq<Token<T>>)
    requires PPipe(ts).Ok?
    ensures PExec(ts).Ok?
    ensures !HeadIn(PExec(ts).rest, "|") ==> PPipe(ts) == PExec(ts)
    ensures HeadIn(PExec(ts).rest, "|") ==>
              var r := PPipe(PExec(ts).rest[1..]); r.Ok? && PPipe(ts) == Ok(Pipe(PExec(ts).cmd, r.cmd), r.rest)
  {
    hide PExec;
  }

  lemma {:induction false} PipedUp<T(!new)>(ts: seq<Token<T>>, j: nat, k: nat, l: Cmd<T>, r: Cmd<T>)
    requires j < k <= |ts| && HeadIn(ts[j..], "|") && Unit(ts[..j], l) && Pipeline(ts[j + 1..k], r)
    ensures Pipeline(ts[..k], Pipe(l, r))
  {
    hide Unit;
    Takes(ts, 0, j, k);
    Takes(ts, j + 1, k, k);
    assert Piped(ts[..k], j, Pipe(l, r));
  }

  lemma {:induction false} UnitIsPipeline<T(!new)>(ts: seq<Token<T>>, c: Cmd<T>)
    requires Unit(ts, c)
    ensures Pipeline(ts, c)
  {
  }

  lemma {:induction false} PipeSound<T(!new)>(ts: seq<Token<T>>) returns (k: nat)
    requires PPipe(ts).Ok?
    ensures k <= |ts| && PPipe(ts).rest == ts[k..] && Pipeline(ts[..k], PPipe(ts).cmd)
    decreases |ts|, 2
  {
    hide PExec, PPipe, Unit, Pipeline;
    PipeCases(ts);
    var j := ExecSound(ts);
    if !HeadIn(ts[j..], "|") {
      k := j;
      UnitIsPipeline(ts[..j], PExec(ts).cmd);
    } else {
      Drops(ts, j, 1);
      var i := PipeSound(ts[j + 1..]);
      k := j + 1 + i;
      Drops(ts, j + 1, i);
      PipedUp(ts, j, k, PExec(ts).cmd, PPipe(ts[j + 1..]).cmd);
    }
  }

  lemma {:induction false} BacksSound<T(!new)>(before: seq<Token<T>>, c: Cmd<T>, ts: seq<Token<T>>) returns (k: nat)
    requires Job(before, c)
    ensures k <= |ts| && PBacks(c, ts).rest == ts[k..] && Job(before + ts[..k], PBacks(c, ts).cmd)
    decreases |ts|
  {
    hide Pipeline;
    if HeadIn(ts, "&") {
      var next := before + [ts[0]];
      assert next[..|next| - 1] == before;
      var j := BacksSound(next, Back(c), ts[1..]);
      k := j + 1;
      assert ts[1..][j..] == ts[k..] && next + ts[1..][..j] == before + ts[..k];
    } else {
      k := 0;
      assert ts[0..] == ts && before + ts[..0] == before;
    }
  }

  lemma {:induction false} LineCases<T>(ts: seq<Token<T>>)
    requires PLine(ts).Ok?
    ensures PPipe(ts).Ok?
    ensures var b := PBacks(PPipe(ts).cmd, PPipe(ts).rest);
            && (!HeadIn(b.rest, ";") ==> PLine(ts) == b)
            && (HeadIn(b.rest, ";") ==>
                  var r := PLine(b.rest[1..]); r.Ok? && PLine(ts) == Ok(List(b.cmd, r.cmd), r.rest))
  {
    hide PPipe, PBacks;
  }

  lemma {:induction false} ListedUp<T(!new)>(ts: seq<Token<T>>, n: nat, k: nat, l: Cmd<T>, r: Cmd<T>)
    requires n < k <= |ts| && HeadIn(ts[n..], ";") && Job(ts[..n], l) && Line(ts[n + 1..k], r)
    ensures Line(ts[..k], List(l, r))
  {
    hide Job;
    Takes(ts, 0, n, k);
    Takes(ts, n + 1, k, k);
    assert Listed(ts[..k], n, List(l, r));
  }

  lemma {:induction false} JobIsLine<T(!new)>(ts: seq<Token<T>>, c: Cmd<T>)
    requires Job(ts, c)
    ensures Line(ts, c)
  {
  }

  lemma {:induction false} LineSound<T(!new)>(ts: seq<Token<T>>) returns (k: nat)
    requires PLine(ts).Ok?
    ensures k <= |ts| && PLine(ts).rest == ts[k..] && Line(ts[..k], PLine(ts).cmd)
    decreases |ts|, 3
  {
    hide PPipe, Pipeline, PBacks, PLine, Job, Line;
    LineCases(ts);
    var j := PipeSound(ts);
    var c := PPipe(ts).cmd;
    JobOfPipeline(ts[..j], c);
    var b := BacksSound(ts[..j], c, ts[j..]);
    var n := j + b;
    Drops(ts, j, b);
    Takes(ts, 0, j, n);
    var job := PBacks(c, ts[j..]).cmd;
    if !HeadIn(ts[n..], ";") {
      k := n;
      JobIsLine(ts[..n], job);
    } else {
      Drops(ts, n, 1);
      var i := LineSound(ts[n + 1..]);
      k := n + 1 + i;
      Drops(ts, n + 1, i);
      ListedUp(ts, n, k, job, PLine(ts[n + 1..]).cmd);
    }
  }

  lemma {:induction false} JobOfPipeline<T(!new)>(ts: seq<Token<T>>, c: Cmd<T>)
    requires Pipeline(ts, c)
    ensures Job(ts, c)
  {
  }

  /** The parser reads a whole line as a command exactly when the line stands for that command. */
  lemma {:induction false} LineIff<T(!new)>(ts: seq<Token<T>>, c: Cmd<T>)
    ensures PLine(ts) == Ok(c, []) <==> Line(ts, c)
  {
    hide PLine, Line;
    if Line(ts, c) {
      LineParsed(ts, c, []);
      assert ts + [] == ts;
    }
    if PLine(ts) == Ok(c, []) {
      var k := LineSound(ts);
      assert ts[..k] == ts;
    }
  }

  /** No line stands for two commands. */
  lemma {:induction false} Unambiguous<T(!new)>(ts: seq<Token<T>>, c: Cmd<T>, d: Cmd<T>)
    requires Line(ts, c) && Line(ts, d)
    ensures c == d
  {
    hide PLine, Line;
    LineIff(ts, c);
    LineIff(ts, d);
  }
}
