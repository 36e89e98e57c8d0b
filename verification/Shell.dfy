/**
 The parser of the shell (sh.c) as it runs on the line: a cursor that gettoken and peek
 advance, loops where the source has loops, and words recorded as pairs of pointers that
 nulterminate later cuts out of the line in place.

 A line is the string before its terminating NUL; a position may be its length, where the
 NUL is.
 */
module Shell {
  import opened Common
  import opened ShellGrammar
  import ShellSyntax

  /** argv[i] and eargv[i]: where a word starts and where it ends. */
  datatype Span = Span(q: nat, eq: nat)

  /** A panic ends the shell's child process. */
  datatype Outcome = Parsed(cmd: Cmd<Span>) | Panic

  predicate IsSpace(c: char) {
    c in " \t\r\n\U{0B}"
  }

  predicate IsSymbol(c: char) {
    c in "<|>&;()"
  }

  predicate IsWordChar(c: char) {
    !IsSpace(c) && !IsSymbol(c) && c != '\0'
  }

  // Tokens of a line.

  function SkipSpaces(s: string, p: nat): (q: nat)
    requires p <= |s|
    ensures p <= q <= |s| && (q < |s| ==> !IsSpace(s[q]))
    ensures forall i | p <= i < q :: IsSpace(s[i])
    decreases |s| - p
  {
    if p < |s| && IsSpace(s[p]) then SkipSpaces(s, p + 1) else p
  }

  function WordEnd(s: string, p: nat): (e: nat)
    requires p <= |s|
    ensures p <= e <= |s| && (e < |s| ==> IsSpace(s[e]) || IsSymbol(s[e]))
    ensures forall i | p <= i < e :: !IsSpace(s[i]) && !IsSymbol(s[i])
    decreases |s| - p
  {
    if p < |s| && !IsSpace(s[p]) && !IsSymbol(s[p]) then WordEnd(s, p + 1) else p
  }

  /** The token that starts at q, and where it ends. */
  function TokenAt(s: string, q: nat): (r: (Token<Span>, nat))
    requires q < |s| && !IsSpace(s[q])
    ensures q < r.1 <= |s|
  {
    if s[q] == '>' then
      if q + 1 < |s| && s[q + 1] == '>' then (Append, q + 2) else (Sym('>'), q + 1)
    else if IsSymbol(s[q]) then (Sym(s[q]), q + 1)
    else
      assert WordEnd(s, q) == WordEnd(s, q + 1);
      (Word(Span(q, WordEnd(s, q))), WordEnd(s, q))
  }

  function Lex(s: string, p: nat): (ts: seq<Token<Span>>)
    requires p <= |s|
    decreases |s| - p
  {
    var q := SkipSpaces(s, p);
    if q == |s| then []
    else
      var (t, e) := TokenAt(s, q);
      [t] + Lex(s, e)
  }

  /** Spaces before a token do not matter. */
  lemma {:induction false} LexSkips(s: string, p: nat)
    requires p <= |s|
    ensures Lex(s, SkipSpaces(s, p)) == Lex(s, p)
  {
    var q := SkipSpaces(s, p);
    assert SkipSpaces(s, q) == q;
  }

  /** What peek answers for a set of symbols. */
  predicate Peeks(ts: seq<Token<Span>>, toks: string) {
    ts != [] && match ts[0] case Sym(c) => c in toks case Append => '>' in toks case Word(_) => false
  }

  // What the tokens of a line are, without a scanner.

  ghost predicate Blank(s: string, a: nat, b: nat) {
    a <= b <= |s| && forall i | a <= i < b :: IsSpace(s[i])
  }

  predicate Breaks(c: char) {
    IsSpace(c) || IsSymbol(c)
  }

  /** The token t is the characters a .. e of the line; '>' and words go on as far as they can. */
  ghost predicate Stands(s: string, t: Token<Span>, a: nat, e: nat) {
    && a < e <= |s|
    && match t
       case Append => e == a + 2 && s[a] == '>' && s[a + 1] == '>'
       case Sym(c) => e == a + 1 && s[a] == c && IsSymbol(c) && (c == '>' && e < |s| ==> s[e] != '>')
       case Word(w) => w == Span(a, e) && (forall i | a <= i < e :: !Breaks(s[i])) && (e < |s| ==> Breaks(s[e]))
  }

  /** Where the i-th token can begin: after the one before it. */
  function After(p: nat, at: seq<Span>, i: nat): (a: nat)
    requires i <= |at|
  {
    if i == 0 then p else at[i - 1].eq
  }

  /** From p on there is white space, and then t, which does not begin inside a word. */
  ghost predicate Next(s: string, p: nat, t: Token<Span>, w: Span) {
    Blank(s, p, w.q) && Stands(s, t, w.q, w.eq) && (t.Word? && 0 < w.q ==> Breaks(s[w.q - 1]))
  }

  /** From p on the line is these tokens, at these places, and only white space besides. */
  ghost predicate Tokenized(s: string, p: nat, ts: seq<Token<Span>>, at: seq<Span>) {
    && |at| == |ts|
    && (forall i | 0 <= i < |ts| :: Next(s, After(p, at, i), ts[i], at[i]))
    && Blank(s, After(p, at, |at|), |s|)
  }

  ghost predicate Reads(s: string, ts: seq<Token<Span>>) {
    exists at :: Tokenized(s, 0, ts, at)
  }

  /** Not inside a word. */
  predicate Edge(s: string, p: nat)
    requires p <= |s|
  {
    p == 0 || p == |s| || Breaks(s[p - 1]) || Breaks(s[p])
  }

  lemma TokenStands(s: string, q: nat)
    requires q < |s| && !IsSpace(s[q])
    ensures Stands(s, TokenAt(s, q).0, q, TokenAt(s, q).1) && Edge(s, TokenAt(s, q).1)
  {
  }

  lemma {:induction false} LexTokenized(s: string, p: nat) returns (at: seq<Span>)
    requires p <= |s| && Edge(s, p)
    ensures Tokenized(s, p, Lex(s, p), at)
    decreases |s| - p
  {
    var q := SkipSpaces(s, p);
    if q == |s| {
      at := [];
    } else {
      var (t, e) := TokenAt(s, q);
      TokenStands(s, q);
      var rest := LexTokenized(s, e);
      at := [Span(q, e)] + rest;
      assert Next(s, p, t, Span(q, e)) by {
        hide Stands, TokenAt;
        assert !IsSymbol(s[q]) ==> q == p || IsSpace(s[q - 1]) || !Breaks(s[q]);
      }
      hide Stands, TokenAt, Next;
      Prepended(s, p, t, Span(q, e), Lex(s, e), rest);
    }
  }

  lemma Prepended(s: string, p: nat, t: Token<Span>, w: Span, ts: seq<Token<Span>>, at: seq<Span>)
    requires Next(s, p, t, w) && Tokenized(s, w.eq, ts, at)
    ensures Tokenized(s, p, [t] + ts, [w] + at)
  {
    hide Next, Blank;
    var all, places := [t] + ts, [w] + at;
    forall i | 0 <= i < |all| ensures Next(s, After(p, places, i), all[i], places[i]) {
      if i > 0 {
        assert all[i] == ts[i - 1] && places[i] == at[i - 1] && After(p, places, i) == After(w.eq, at, i - 1);
      }
    }
    assert After(p, places, |places|) == After(w.eq, at, |at|);
  }

  lemma FirstGone(s: string, p: nat, ts: seq<Token<Span>>, at: seq<Span>)
    requires Tokenized(s, p, ts, at) && ts != []
    ensures Next(s, p, ts[0], at[0]) && Tokenized(s, at[0].eq, ts[1..], at[1..])
  {
    hide Next, Blank;
    assert After(p, at, 0) == p;
    forall i | 0 <= i < |ts| - 1 ensures Next(s, After(at[0].eq, at[1..], i), ts[1..][i], at[1..][i]) {
      assert ts[1..][i] == ts[i + 1] && at[1..][i] == at[i + 1] && After(at[0].eq, at[1..], i) == After(p, at, i + 1);
    }
  }

  lemma SameFirst(s: string, t: Token<Span>, t': Token<Span>, a: nat, e: nat, e': nat)
    requires Stands(s, t, a, e) && Stands(s, t', a, e')
    ensures t == t' && e == e'
  {
  }

  lemma SameNext(s: string, p: nat, t: Token<Span>, w: Span, t': Token<Span>, w': Span)
    requires Next(s, p, t, w) && Next(s, p, t', w')
    ensures t == t' && w == w'
  {
    assert !IsSpace(s[w.q]) && !IsSpace(s[w'.q]);
    assert w.q == w'.q;
    hide Breaks, IsSpace, IsSymbol;
    SameFirst(s, t, t', w.q, w.eq, w'.eq);
  }

  lemma NotOver(s: string, p: nat, t: Token<Span>, w: Span)
    requires Next(s, p, t, w)
    ensures !Blank(s, p, |s|)
  {
    assert !IsSpace(s[w.q]);
  }

  /** The characters of a line determine its tokens. */
  lemma {:induction false} OneReading(s: string, p: nat, ts: seq<Token<Span>>, at: seq<Span>, ts': seq<Token<Span>>,
                                      at': seq<Span>)
    requires Tokenized(s, p, ts, at) && Tokenized(s, p, ts', at')
    ensures ts == ts' && at == at'
    decreases |ts|
  {
    hide Next, Blank;
    if ts != [] {
      FirstGone(s, p, ts, at);
      NotOver(s, p, ts[0], at[0]);
    }
    if ts' != [] {
      FirstGone(s, p, ts', at');
      NotOver(s, p, ts'[0], at'[0]);
    }
    if ts != [] && ts' != [] {
      SameNext(s, p, ts[0], at[0], ts'[0], at'[0]);
      OneReading(s, at[0].eq, ts[1..], at[1..], ts'[1..], at'[1..]);
      assert ts == [ts[0]] + ts[1..] && ts' == [ts'[0]] + ts'[1..];
      assert at == [at[0]] + at[1..] && at' == [at'[0]] + at'[1..];
    }
  }

  /** The scanner reads exactly them. */
  lemma {:induction false} LexIff(s: string, ts: seq<Token<Span>>)
    ensures Lex(s, 0) == ts <==> Reads(s, ts)
  {
    var at := LexTokenized(s, 0);
    if Reads(s, ts) {
      var at' :| Tokenized(s, 0, ts, at');
      OneReading(s, 0, Lex(s, 0), at, ts, at');
    }
  }

  // The scanner.

  method SkipWhitespace(s: string, p: nat) returns (q: nat)
    requires p <= |s|
    ensures q == SkipSpaces(s, p) && Lex(s, q) == Lex(s, p)
  {
    q := p;
    while q < |s| && IsSpace(s[q])
      invariant p <= q <= |s| && SkipSpaces(s, q) == SkipSpaces(s, p)
    {
      q := q + 1;
    }
    LexSkips(s, p);
  }

  /** gettoken: the next token, or none at the end of the line. */
  method GetToken(s: string, p: nat) returns (t: Option<Token<Span>>, p': nat)
    requires p <= |s|
    ensures p <= p' <= |s|
    ensures if Lex(s, p) == [] then t == None && Lex(s, p') == []
            else t == Some(Lex(s, p)[0]) && Lex(s, p') == Lex(s, p)[1..] && p < p'
    ensures t.None? ==> Blank(s, p, |s|)
    ensures t.Some? ==> exists a, e :: Blank(s, p, a) && Stands(s, t.value, a, e) && Blank(s, e, p')
  {
    var q := SkipWhitespace(s, p);
    if q == |s| {
      return None, q;
    }
    var e := q;
    var tok: Token<Span>;
    match s[q] {
      case '|' => tok, e := Sym('|'), q + 1;
      case '(' => tok, e := Sym('('), q + 1;
      case ')' => tok, e := Sym(')'), q + 1;
      case ';' => tok, e := Sym(';'), q + 1;
      case '&' => tok, e := Sym('&'), q + 1;
      case '<' => tok, e := Sym('<'), q + 1;
      case '>' =>
        tok, e := Sym('>'), q + 1;
        if e < |s| && s[e] == '>' {
          tok, e := Append, q + 2;
        }
      case _ =>
        while e < |s| && !IsSpace(s[e]) && !IsSymbol(s[e])
          invariant q <= e <= |s| && WordEnd(s, e) == WordEnd(s, q)
        {
          e := e + 1;
        }
        tok := Word(Span(q, e));
    }
    assert TokenAt(s, q) == (tok, e);
    assert SkipSpaces(s, q) == q;
    TokenStands(s, q);
    hide TokenAt, Stands;
    p' := SkipWhitespace(s, e);
    assert Blank(s, p, q) && Stands(s, tok, q, e) && Blank(s, e, p');
    return Some(tok), p';
  }

  /** peek: skip spaces, and say whether the next character is one of toks. */
  method Peek(s: string, p: nat, toks: string) returns (p': nat, b: bool)
    requires p <= |s| && forall i | 0 <= i < |toks| :: IsSymbol(toks[i])
    ensures p <= p' <= |s| && Lex(s, p') == Lex(s, p)
    ensures b <==> Peeks(Lex(s, p), toks)
    ensures Lex(s, p) == [] <==> p' == |s|
  {
    p' := SkipWhitespace(s, p);
    assert SkipSpaces(s, p') == p';
    b := p' < |s| && s[p'] in toks;
  }

  // The parser.

  /** A parser method agrees with the grammar on the tokens before and after it. */
  ghost predicate Agrees(s: string, g: Result<Span>, r: Outcome, p: nat, p': nat) {
    && p <= p' <= |s|
    && match g
       case Err => r == Panic
       case Ok(cmd, rest) => r == Parsed(cmd) && Lex(s, p') == rest
  }

  method ParseRedirs(s: string, p: nat, rs: seq<Redirection<Span>>)
    returns (ok: bool, rs': seq<Redirection<Span>>, p': nat)
    requires p <= |s|
    ensures p <= p' <= |s|
    ensures match PRedirs(rs, Lex(s, p))
            case RedirErr => !ok
            case RedirOk(all, rest) => ok && rs' == all && Lex(s, p') == rest
  {
    hide Blank, Stands;
    ghost var g := PRedirs(rs, Lex(s, p));
    rs', p' := rs, p;
    var b: bool;
    p', b := Peek(s, p', "<>");
    while b
      invariant p <= p' <= |s| && g == PRedirs(rs', Lex(s, p')) && b == HeadRedirects(Lex(s, p'))
      decreases |s| - p'
    {
      var tok, word: Option<Token<Span>>;
      ghost var ts := Lex(s, p');
      tok, p' := GetToken(s, p');
      word, p' := GetToken(s, p');
      if word.None? || !word.value.Word? {
        return false, rs', p';  // panic("missing file for redirection")
      }
      assert ts[2..] == ts[1..][1..];
      rs' := rs' + [Redirection(word.value.w, tok.value != Sym('<'))];
      p', b := Peek(s, p', "<>");
    }
    ok := true;
  }

  method ParseExec(s: string, p: nat) returns (r: Outcome, p': nat)
    requires p <= |s|
    ensures Agrees(s, PExec(Lex(s, p)), r, p, p')
    decreases |s| - p, 1
  {
    var b: bool;
    p', b := Peek(s, p, "(");
    if b {
      r, p' := ParseBlock(s, p');
      return;
    }
    var ok, rs;
    ok, rs, p' := ParseRedirs(s, p', []);
    if !ok {
      return Panic, p';
    }
    r, p' := ParseArgs(s, p', rs);
  }

  /** The loop of parseexec. */
  method ParseArgs(s: string, p: nat, redirs: seq<Redirection<Span>>) returns (r: Outcome, p': nat)
    requires p <= |s|
    ensures Agrees(s, PArgs([], redirs, Lex(s, p)), r, p, p')
  {
    ghost var g := PArgs([], redirs, Lex(s, p));
    var args: seq<Span>, rs := [], redirs;
    p' := p;
    while true
      invariant p <= p' <= |s| && g == PArgs(args, rs, Lex(s, p')) && |args| < MAXARGS
      decreases |s| - p'
    {
      var b, t;
      ghost var ts := Lex(s, p');
      p', b := Peek(s, p', "|)&;");
      assert b == HeadIn(ts, "|)&;");
      if b {
        break;
      }
      t, p' := GetToken(s, p');
      if t.None? {
        break;
      }
      if !t.value.Word? {
        return Panic, p';  // panic("syntax")
      }
      if |args| + 1 >= MAXARGS {
        return Panic, p';  // panic("too many args")
      }
      args := args + [t.value.w];
      var ok;
      ok, rs, p' := ParseRedirs(s, p', rs);
      if !ok {
        return Panic, p';
      }
    }
    r := Parsed(Wrap(Exec(args), rs));
  }

  method ParseBlock(s: string, p: nat) returns (r: Outcome, p': nat)
    requires p <= |s| && HeadIn(Lex(s, p), "(")
    ensures Agrees(s, PBlock(Lex(s, p)), r, p, p')
    decreases |s| - p, 0
  {
    var t, b, ok, rs;
    t, p' := GetToken(s, p);
    r, p' := ParseLine(s, p');
    if r.Panic? {
      return;
    }
    p', b := Peek(s, p', ")");
    if !b {
      return Panic, p';  // panic("syntax - missing )")
    }
    t, p' := GetToken(s, p');
    ok, rs, p' := ParseRedirs(s, p', []);
    if !ok {
      return Panic, p';
    }
    r := Parsed(Wrap(r.cmd, rs));
  }

  method ParsePipe(s: string, p: nat) returns (r: Outcome, p': nat)
    requires p <= |s|
    ensures Agrees(s, PPipe(Lex(s, p)), r, p, p')
    decreases |s| - p, 2
  {
    var b, t;
    r, p' := ParseExec(s, p);
    if r.Panic? {
      return;
    }
    p', b := Peek(s, p', "|");
    if b {
      var right;
      t, p' := GetToken(s, p');
      right, p' := ParsePipe(s, p');
      if right.Panic? {
        return Panic, p';
      }
      r := Parsed(Pipe(r.cmd, right.cmd));
    }
  }

  method ParseLine(s: string, p: nat) returns (r: Outcome, p': nat)
    requires p <= |s|
    ensures Agrees(s, PLine(Lex(s, p)), r, p, p')
    decreases |s| - p, 3
  {
    var b, t;
    r, p' := ParsePipe(s, p);
    if r.Panic? {
      return;
    }
    var cmd := r.cmd;
    ghost var g := PBacks(cmd, Lex(s, p'));
    p', b := Peek(s, p', "&");
    while b
      invariant p <= p' <= |s| && g == PBacks(cmd, Lex(s, p')) && b == HeadIn(Lex(s, p'), "&")
      decreases |s| - p'
    {
      t, p' := GetToken(s, p');
      cmd := Back(cmd);
      p', b := Peek(s, p', "&");
    }
    p', b := Peek(s, p', ";");
    if b {
      t, p' := GetToken(s, p');
      var right;
      right, p' := ParseLine(s, p');
      if right.Panic? {
        return Panic, p';
      }
      cmd := List(cmd, right.cmd);
    }
    r := Parsed(cmd);
  }

  /** What parsecmd accepts: a line that is one command and nothing else. */
  ghost function Accepted(s: string): (r: Outcome) {
    match PLine(Lex(s, 0))
    case Err => Panic
    case Ok(cmd, rest) => if rest == [] then Parsed(cmd) else Panic
  }

  /** parsecmd up to nulterminate; it ends on every line. */
  method ParseCmd(s: string) returns (r: Outcome)
    ensures r == Accepted(s)
  {
    var p, b;
    r, p := ParseLine(s, 0);
    if r.Panic? {
      return;
    }
    p, b := Peek(s, p, "");
    if p != |s| {
      return Panic;  // panic("syntax")
    }
  }

  /** A line is accepted as a command exactly when its tokens stand for it, and panics when they stand for none. */
  lemma {:induction false} AcceptedIff(s: string)
    ensures forall c :: Accepted(s) == Parsed(c) <==> exists ts :: Reads(s, ts) && ShellSyntax.Line(ts, c)
    ensures Accepted(s) == Panic <==> forall ts, c | Reads(s, ts) :: !ShellSyntax.Line(ts, c)
  {
    hide PLine, ShellSyntax.Line, Lex, Reads;
    LexIff(s, Lex(s, 0));
    forall ts, c | Reads(s, ts) ensures Accepted(s) == Parsed(c) <==> ShellSyntax.Line(ts, c) {
      LexIff(s, ts);
      ShellSyntax.LineIff(ts, c);
    }
    if Accepted(s).Parsed? {
      assert ShellSyntax.Line(Lex(s, 0), Accepted(s).cmd);
    }
  }

  // Cutting the words out of the line.

  /** A maximal run of word characters. */
  ghost predicate IsToken(s: string, w: Span) {
    && w.q < w.eq <= |s|
    && (forall i | w.q <= i < w.eq :: !IsSpace(s[i]) && !IsSymbol(s[i]))
    && (w.eq < |s| ==> IsSpace(s[w.eq]) || IsSymbol(s[w.eq]))
  }

  ghost predicate TokensIn(s: string, ts: seq<Token<Span>>) {
    forall i | 0 <= i < |ts| && ts[i].Word? :: IsToken(s, ts[i].w)
  }

  lemma {:induction false} LexTokens(s: string, p: nat)
    requires p <= |s|
    ensures TokensIn(s, Lex(s, p))
    decreases |s| - p
  {
    var q := SkipSpaces(s, p);
    if q < |s| {
      var (t, e) := TokenAt(s, q);
      LexTokens(s, e);
    }
  }

  ghost function LineWords(s: string): (ws: set<Span>) {
    var ts := Lex(s, 0);
    set i | 0 <= i < |ts| && ts[i].Word? :: ts[i].w
  }

  /** The positions nulterminate writes to. */
  ghost function Ends(c: Cmd<Span>): (e: set<nat>) {
    match c
    case Exec(args) => set i | 0 <= i < |args| :: args[i].eq
    case Redir(d, file, _) => Ends(d) + {file.eq}
    case Pipe(l, r) => Ends(l) + Ends(r)
    case List(l, r) => Ends(l) + Ends(r)
    case Back(d) => Ends(d)
  }

  /** nulterminate: NULs at the ends of the recorded words and nowhere else. */
  method NulTerminate(buf: array<char>, cmd: Cmd<Span>)
    requires forall e | e in Ends(cmd) :: e < buf.Length
    modifies buf
    ensures forall i | 0 <= i < buf.Length :: buf[i] == if i in Ends(cmd) then '\0' else old(buf[i])
    decreases cmd
  {
    match cmd {
      case Exec(args) =>
        assert forall i | 0 <= i < |args| :: args[i].eq in Ends(cmd);
        CutArgs(buf, args);
      case Redir(d, file, _) =>
        assert Ends(cmd) == Ends(d) + {file.eq};
        NulTerminate(buf, d);
        buf[file.eq] := '\0';
      case Pipe(l, r) =>
        assert Ends(cmd) == Ends(l) + Ends(r);
        NulTerminate(buf, l);
        NulTerminate(buf, r);
      case List(l, r) =>
        assert Ends(cmd) == Ends(l) + Ends(r);
        NulTerminate(buf, l);
        NulTerminate(buf, r);
      case Back(d) =>
        assert Ends(cmd) == Ends(d);
        NulTerminate(buf, d);
    }
  }

  /** The EXEC case of nulterminate. */
  method CutArgs(buf: array<char>, args: seq<Span>)
    requires forall i | 0 <= i < |args| :: args[i].eq < buf.Length
    modifies buf
    ensures forall k | 0 <= k < buf.Length ::
      buf[k] == if k in (set i | 0 <= i < |args| :: args[i].eq) then '\0' else old(buf[k])
  {
    var i := 0;
    while i < |args|
      invariant 0 <= i <= |args|
      invariant forall k | 0 <= k < buf.Length ::
        buf[k] == if exists j :: 0 <= j < i && args[j].eq == k then '\0' else old(buf[k])
    {
      buf[args[i].eq] := '\0';
      i := i + 1;
    }
  }

  ghost predicate Records(c: Cmd<Span>, w: Span) {
    match c
    case Exec(args) => w in args
    case Redir(d, file, _) => Records(d, w) || w == file
    case Pipe(l, r) => Records(l, w) || Records(r, w)
    case List(l, r) => Records(l, w) || Records(r, w)
    case Back(d) => Records(d, w)
  }

  lemma {:induction false} RecordedEnds(c: Cmd<Span>, ws: set<Span>)
    requires RecordsIn(c, ws)
    ensures forall e | e in Ends(c) :: exists w :: w in ws && w.eq == e
    ensures forall w | Records(c, w) :: w in ws && w.eq in Ends(c)
  {
    match c
    case Exec(args) =>
    case Redir(d, _, _) => RecordedEnds(d, ws);
    case Pipe(l, r) => RecordedEnds(l, ws); RecordedEnds(r, ws);
    case List(l, r) => RecordedEnds(l, ws); RecordedEnds(r, ws);
    case Back(d) => RecordedEnds(d, ws);
  }

  /** The C string that starts at position q. */
  ghost predicate IsCString(buf: seq<char>, q: nat, w: string) {
    q + |w| < |buf| && buf[q..q + |w|] == w && '\0' !in w && buf[q + |w|] == '\0'
  }

  /** parsecmd: parse, then cut; every recorded pointer becomes exactly the word it was recorded for. */
  method ParseAndCut(buf: array<char>, s: string) returns (r: Outcome)
    requires buf.Length == |s| + 1 && buf[..|s|] == s && buf[|s|] == '\0' && '\0' !in s
    modifies buf
    ensures r == Accepted(s)
    ensures r == Panic ==> buf[..] == old(buf[..])
    ensures r.Parsed? ==> forall w | Records(r.cmd, w) :: w.q < w.eq <= |s| && IsCString(buf[..], w.q, s[w.q..w.eq])
  {
    r := ParseCmd(s);
    if r.Parsed? {
      var cmd := r.cmd;
      EndsOutsideWords(s, cmd);
      NulTerminate(buf, cmd);
      forall w | Records(cmd, w) ensures IsCString(buf[..], w.q, s[w.q..w.eq]) {
        assert buf[w.q..w.eq] == s[w.q..w.eq];
      }
    }
  }

  /** No recorded word ends inside a recorded word. */
  lemma {:induction false} EndsOutsideWords(s: string, cmd: Cmd<Span>)
    requires Accepted(s) == Parsed(cmd)
    ensures forall w | Records(cmd, w) :: IsToken(s, w) && w.eq in Ends(cmd)
    ensures forall e | e in Ends(cmd) :: e <= |s|
    ensures forall w, e | Records(cmd, w) && e in Ends(cmd) :: !(w.q <= e < w.eq)
  {
    var ws := LineWords(s);
    LexTokens(s, 0);
    LineBuilt(Lex(s, 0), ws);
    RecordedEnds(cmd, ws);
    forall w, e | Records(cmd, w) && e in Ends(cmd) ensures !(w.q <= e < w.eq) {
      var v :| v in ws && v.eq == e;
      assert IsToken(s, v) && IsToken(s, w);
    }
  }

  // Printing a command and parsing it back.

  function TokenText(t: Token<string>): (w: string) {
    match t
    case Word(w) => w
    case Sym(c) => [c]
    case Append => ">>"
  }

  /** Tokens as text, each followed by a space. */
  function Spell(ts: seq<Token<string>>): (s: string) {
    if ts == [] then "" else TokenText(ts[0]) + " " + Spell(ts[1..])
  }

  function Print(c: Cmd<string>): (s: string) {
    Spell(Toks(c, 0))
  }

  /** A word the shell can read back: not empty, no white space, no symbol, no NUL. */
  predicate IsWord(w: string) {
    w != "" && forall i | 0 <= i < |w| :: IsWordChar(w[i])
  }

  ghost predicate ReadableToken(t: Token<string>) {
    match t case Word(w) => IsWord(w) case Sym(c) => IsSymbol(c) case Append => true
  }

  ghost predicate Readable(ts: seq<Token<string>>) {
    forall i | 0 <= i < |ts| :: ReadableToken(ts[i])
  }

  /** Every word of the command can be read back. */
  ghost predicate ReadableCmd(c: Cmd<string>) {
    match c
    case Exec(args) => forall i | 0 <= i < |args| :: IsWord(args[i])
    case Redir(d, file, _) => ReadableCmd(d) && IsWord(file)
    case Pipe(l, r) => ReadableCmd(l) && ReadableCmd(r)
    case List(l, r) => ReadableCmd(l) && ReadableCmd(r)
    case Back(d) => ReadableCmd(d)
  }

  /** The text a recorded word points at. */
  ghost function TextOf(s: string, w: Span): (t: string) {
    if w.q <= w.eq <= |s| then s[w.q..w.eq] else ""
  }

  ghost function TokenOf(s: string, t: Token<Span>): (r: Token<string>) {
    match t
    case Word(w) => Word(TextOf(s, w))
    case Sym(c) => Sym(c)
    case Append => Append
  }

  ghost function TokensOf(s: string, ts: seq<Token<Span>>): (r: seq<Token<string>>)
    ensures |r| == |ts|
  {
    seq(|ts|, i requires 0 <= i < |ts| => TokenOf(s, ts[i]))
  }

  /** The command that a tree of pointers into s stands for. */
  ghost function CmdOf(s: string, c: Cmd<Span>): (r: Cmd<string>) {
    match c
    case Exec(args) => Exec(seq(|args|, i requires 0 <= i < |args| => TextOf(s, args[i])))
    case Redir(d, file, out) => Redir(CmdOf(s, d), TextOf(s, file), out)
    case Pipe(l, r) => Pipe(CmdOf(s, l), CmdOf(s, r))
    case List(l, r) => List(CmdOf(s, l), CmdOf(s, r))
    case Back(d) => Back(CmdOf(s, d))
  }

  lemma {:induction false} WordEndIs(s: string, p: nat, e: nat)
    requires p <= e <= |s| && (forall i | p <= i < e :: !IsSpace(s[i]) && !IsSymbol(s[i]))
    requires e < |s| && IsSpace(s[e])
    ensures WordEnd(s, p) == e
    decreases e - p
  {
    if p < e {
      WordEndIs(s, p + 1, e);
    }
  }

  /** Scanning one spelled token. */
  lemma SpelledToken(s: string, p: nat, t: Token<string>, rest: string)
    requires p <= |s| && s[p..] == TokenText(t) + " " + rest
    requires ReadableToken(t)
    ensures var e := p + |TokenText(t)|;
            && e < |s| && s[e] == ' ' && s[e + 1..] == rest
            && SkipSpaces(s, p) == p && p < e && TokenAt(s, p).1 == e && TokenOf(s, TokenAt(s, p).0) == t
  {
    var w := TokenText(t);
    var e := p + |w|;
    assert forall i | 0 <= i < |w| :: s[p + i] == s[p..][i] == w[i];
    assert s[e] == s[p..][|w|] == ' ';
    assert s[e + 1..] == s[p..][|w| + 1..];
    assert s[p] == w[0];
    if t.Word? {
      assert forall i | p <= i < e :: s[i] == w[i - p] && IsWordChar(w[i - p]);
      WordEndIs(s, p, e);
      assert s[p..e] == w;
    }
  }

  lemma LexOne(s: string, p: nat, e: nat)
    requires p < e < |s| && SkipSpaces(s, p) == p && TokenAt(s, p).1 == e && s[e] == ' '
    ensures Lex(s, p) == [TokenAt(s, p).0] + Lex(s, e + 1)
  {
    LexSkips(s, e);
    LexSkips(s, e + 1);
    assert SkipSpaces(s, e) == SkipSpaces(s, e + 1);
  }

  lemma TokensCons(s: string, t: Token<Span>, ts: seq<Token<Span>>)
    ensures TokensOf(s, [t] + ts) == [TokenOf(s, t)] + TokensOf(s, ts)
  {
  }

  lemma {:induction false} SpellCons(ts: seq<Token<string>>)
    requires ts != [] && Readable(ts)
    ensures Spell(ts) == TokenText(ts[0]) + " " + Spell(ts[1..]) && ReadableToken(ts[0]) && Readable(ts[1..])
  {
  }

  lemma {:induction false} NothingToLex(s: string)
    ensures TokensOf(s, Lex(s, |s|)) == [] && Spell([]) == ""
  {
  }

  /** Scanning spelled tokens gives them back. */
  lemma {:induction false} LexSpell(s: string, p: nat, ts: seq<Token<string>>)
    requires p <= |s| && s[p..] == Spell(ts) && Readable(ts)
    ensures TokensOf(s, Lex(s, p)) == ts
    decreases |ts|
  {
    hide *;
    if ts == [] {
      NothingToLex(s);
      assert p == |s|;
    } else {
      SpellCons(ts);
      SpelledToken(s, p, ts[0], Spell(ts[1..]));
      var e := p + |TokenText(ts[0])|;
      LexSpell(s, e + 1, ts[1..]);
      LexOne(s, p, e);
      TokensCons(s, TokenAt(s, p).0, Lex(s, e + 1));
      assert ts == [ts[0]] + ts[1..];
    }
  }

  lemma {:induction false} WordsReadable(args: seq<string>)
    requires forall i | 0 <= i < |args| :: IsWord(args[i])
    ensures Readable(Words(args))
  {
    if args != [] {
      WordsReadable(args[1..]);
    }
  }

  lemma {:induction false} ToksReadable(c: Cmd<string>, level: nat)
    requires ReadableCmd(c) && level <= 3
    ensures Readable(Toks(c, level))
    decreases c, level
  {
    if Loosest(c) < level {
      ToksReadable(c, 0);
    } else {
      match c
      case Exec(args) => WordsReadable(args);
      case Redir(d, _, _) => ToksReadable(d, 3);
      case Pipe(l, r) => ToksReadable(l, 3); ToksReadable(r, 2);
      case Back(d) => ToksReadable(d, 1);
      case List(l, r) => ToksReadable(l, 1); ToksReadable(r, 0);
    }
  }

  // A tree of pointers for a tree of words.

  lemma {:induction false} LiftWords(args: seq<string>, s: string, ts: seq<Token<Span>>) returns (ws: seq<Span>)
    requires TokensOf(s, ts) == Words(args)
    ensures Words(ws) == ts && |ws| == |args| && forall i | 0 <= i < |ws| :: TextOf(s, ws[i]) == args[i]
  {
    if args == [] {
      ws := [];
    } else {
      assert TokensOf(s, ts)[0] == Word(args[0]) && TokensOf(s, ts)[1..] == Words(args[1..]);
      assert TokensOf(s, ts[1..]) == TokensOf(s, ts)[1..];
      var rest := LiftWords(args[1..], s, ts[1..]);
      ws := [ts[0].w] + rest;
      assert ws[1..] == rest && ts == [ts[0]] + ts[1..];
    }
  }

  lemma SplitTokens(s: string, ts: seq<Token<Span>>, a: seq<Token<string>>, b: seq<Token<string>>)
    requires TokensOf(s, ts) == a + b
    ensures |a| <= |ts| && TokensOf(s, ts[..|a|]) == a && TokensOf(s, ts[|a|..]) == b && ts[..|a|] + ts[|a|..] == ts
  {
    assert TokensOf(s, ts[..|a|]) == TokensOf(s, ts)[..|a|];
    assert TokensOf(s, ts[|a|..]) == TokensOf(s, ts)[|a|..];
  }

  /** Tokens that read like a printed command are the printed form of a tree of pointers. */
  lemma {:induction false} Lift(c: Cmd<string>, level: nat, s: string, ts: seq<Token<Span>>) returns (d: Cmd<Span>)
    requires level <= 3 && TokensOf(s, ts) == Toks(c, level)
    ensures Toks(d, level) == ts && CmdOf(s, d) == c && Loosest(d) == Loosest(c)
    ensures WellFormed(c) ==> WellFormed(d)
    decreases c, level + 1
  {
    if Loosest(c) < level {
      var mid := Toks(c, 0);
      SplitTokens(s, ts, [Sym('(')], mid + [Sym(')')]);
      SplitTokens(s, ts[1..], mid, [Sym(')')]);
      d := Lift(c, 0, s, ts[1..][..|mid|]);
      LiftOne(s, ts[..1], Sym('('));
      LiftOne(s, ts[1..][|mid|..], Sym(')'));
    } else {
      match c
      case Exec(args) =>
        var ws := LiftWords(args, s, ts);
        d := Exec(ws);
        assert CmdOf(s, d).args == args;
      case Redir(e, file, out) => d := LiftRedir(c, s, ts);
      case Pipe(l, r) =>
        var x, y := LiftPair(c, 3, '|', 2, s, ts);
        d := Pipe(x, y);
      case List(l, r) =>
        var x, y := LiftPair(c, 1, ';', 0, s, ts);
        d := List(x, y);
      case Back(e) =>
        SplitTokens(s, ts, Toks(e, 1), [Sym('&')]);
        var x := Lift(e, 1, s, ts[..|Toks(e, 1)|]);
        LiftOne(s, ts[|Toks(e, 1)|..], Sym('&'));
        d := Back(x);
    }
  }

  lemma LiftOne(s: string, ts: seq<Token<Span>>, t: Token<string>)
    requires TokensOf(s, ts) == [t] && !t.Word?
    ensures ts == [if t.Sym? then Sym(t.c) else Append]
  {
    assert TokensOf(s, ts)[0] == TokenOf(s, ts[0]);
  }

  lemma {:induction false} LiftRedir(c: Cmd<string>, s: string, ts: seq<Token<Span>>) returns (d: Cmd<Span>)
    requires c.Redir? && TokensOf(s, ts) == Toks(c.cmd, 3) + [Sym(if c.out then '>' else '<'), Word(c.file)]
    ensures d.Redir? && d.out == c.out && CmdOf(s, d) == c && (WellFormed(c) ==> WellFormed(d))
    ensures ts == Toks(d.cmd, 3) + [Sym(if d.out then '>' else '<'), Word(d.file)]
    decreases c, 0
  {
    var inner := Toks(c.cmd, 3);
    SplitTokens(s, ts, inner, [Sym(if c.out then '>' else '<'), Word(c.file)]);
    var tail := ts[|inner|..];
    var x := Lift(c.cmd, 3, s, ts[..|inner|]);
    assert TokensOf(s, tail)[0] == TokenOf(s, tail[0]) && TokensOf(s, tail)[1] == TokenOf(s, tail[1]);
    d := Redir(x, tail[1].w, c.out);
    assert tail == [tail[0], tail[1]];
  }

  lemma {:induction false} LiftPair(c: Cmd<string>, ll: nat, sep: char, rl: nat, s: string, ts: seq<Token<Span>>)
    returns (x: Cmd<Span>, y: Cmd<Span>)
    requires (c.Pipe? || c.List?) && ll <= 3 && rl <= 3
    requires TokensOf(s, ts) == Toks(c.left, ll) + [Sym(sep)] + Toks(c.right, rl)
    ensures ts == Toks(x, ll) + [Sym(sep)] + Toks(y, rl) && CmdOf(s, x) == c.left && CmdOf(s, y) == c.right
    ensures WellFormed(c) ==> WellFormed(x) && WellFormed(y)
    decreases c, 0
  {
    var a, b := Toks(c.left, ll), [Sym(sep)] + Toks(c.right, rl);
    assert TokensOf(s, ts) == a + b;
    SplitTokens(s, ts, a, b);
    SplitTokens(s, ts[|a|..], [Sym(sep)], Toks(c.right, rl));
    x := Lift(c.left, ll, s, ts[..|a|]);
    y := Lift(c.right, rl, s, ts[|a|..][1..]);
    LiftOne(s, ts[|a|..][..1], Sym(sep));
  }

  /**
   The shell reads back what the printer prints: for every command whose words can be read
   and whose commands have fewer than MAXARGS words, parsing its printed form succeeds and
   gives a tree of pointers into the line that stands for the same command.
   */
  lemma {:induction false} RoundTrip(c: Cmd<string>)
    requires WellFormed(c) && ReadableCmd(c)
    ensures var r := Accepted(Print(c)); r.Parsed? && CmdOf(Print(c), r.cmd) == c
  {
    var s := Print(c);
    ToksReadable(c, 0);
    assert s[0..] == s;
    LexSpell(s, 0, Toks(c, 0));
    var ts := Lex(s, 0);
    var d := Lift(c, 0, s, ts);
    RoundTripLine(d, []);
    assert Toks(d, 0) + [] == ts;
  }
}
