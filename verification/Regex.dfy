/**
 The regular expression matcher of grep (grep.c), against the language its patterns denote.

 A C string is the sequence of its characters before the terminating NUL.
 */
module Regex {

  /** One step of a pattern: a character, any character, or any number of one of these. */
  datatype Item = One(c: char) | Star(c: char)

  datatype Pattern = Pattern(items: seq<Item>, end: bool)

  /** '.' stands for every character. */
  predicate Accepts(c: char, x: char) {
    c == '.' || c == x
  }

  /** How matchhere reads a pattern: '*' binds to the character before it, a final '$' anchors. */
  function Parse(re: string): (p: Pattern)
    decreases |re|
  {
    if re == "" then Pattern([], false)
    else if |re| >= 2 && re[1] == '*' then
      var p := Parse(re[2..]); Pattern([Star(re[0])] + p.items, p.end)
    else if re == "$" then Pattern([], true)
    else
      var p := Parse(re[1..]); Pattern([One(re[0])] + p.items, p.end)
  }

  // Which pattern a text is.

  /** A pattern written out: '*' behind what is repeated, '$' behind an anchored pattern. */
  function Text(items: seq<Item>, end: bool): (re: string) {
    if items == [] then (if end then "$" else "")
    else match items[0]
      case One(c) => [c] + Text(items[1..], end)
      case Star(c) => [c] + "*" + Text(items[1..], end)
  }

  /** No character is followed by a '*' that is not its own, and none that ends the text is an anchor. */
  ghost predicate Writable(items: seq<Item>, end: bool) {
    forall i | 0 <= i < |items| && items[i].One? ::
      && (i + 1 < |items| ==> items[i + 1].c != '*')
      && (i + 1 == |items| && !end ==> items[i].c != '$')
  }

  /** Every pattern that can be written is read back. */
  lemma {:induction false} TextParses(items: seq<Item>, end: bool)
    requires Writable(items, end)
    ensures Parse(Text(items, end)) == Pattern(items, end)
    decreases |items|
  {
    if items != [] {
      var it, rest, re := items[0], items[1..], Text(items, end);
      assert Writable(rest, end) by {
        forall i | 0 <= i < |rest| && rest[i].One?
          ensures (i + 1 < |rest| ==> rest[i + 1].c != '*') && (i + 1 == |rest| && !end ==> rest[i].c != '$')
        {
          assert items[i + 1] == rest[i];
        }
      }
      TextParses(rest, end);
      TextHead(rest, end);
      assert [it] + rest == items;
      if it.Star? {
        assert re[2..] == Text(rest, end) && re[1] == '*';
      } else {
        assert re[1..] == Text(rest, end);
        assert rest != [] ==> items[1] == rest[0];
      }
    }
  }

  lemma TextHead(items: seq<Item>, end: bool)
    ensures items != [] ==> Text(items, end) != "" && Text(items, end)[0] == items[0].c
    ensures items == [] && end ==> Text(items, end) == "$"
  {
  }

  /** And every text is a pattern written out, so that Parse is the only way to read one. */
  lemma {:induction false} ParsedText(re: string)
    ensures Writable(Parse(re).items, Parse(re).end) && Text(Parse(re).items, Parse(re).end) == re
    decreases |re|
  {
    if re == "" || re == "$" {
    } else {
      var k := if |re| >= 2 && re[1] == '*' then 2 else 1;
      var rest := Parse(re[k..]);
      ParsedText(re[k..]);
      TextHead(rest.items, rest.end);
      var it := if k == 2 then Star(re[0]) else One(re[0]);
      var p := Parse(re);
      assert p == Pattern([it] + rest.items, rest.end) && p.items[1..] == rest.items;
      assert re == re[..k] + re[k..];
      forall i | 0 <= i < |p.items| && p.items[i].One?
        ensures i + 1 < |p.items| ==> p.items[i + 1].c != '*'
        ensures i + 1 == |p.items| && !p.end ==> p.items[i].c != '$'
      {
        if i > 0 {
          assert p.items[i] == rest.items[i - 1];
          assert i + 1 < |p.items| ==> p.items[i + 1] == rest.items[i];
        } else if |p.items| > 1 {
          assert p.items[1] == rest.items[0] && re[1..][0] == re[1];
        }
      }
    }
  }

  // The language of a pattern.

  ghost predicate InItem(it: Item, w: string) {
    match it
    case One(c) => |w| == 1 && Accepts(c, w[0])
    case Star(c) => forall j | 0 <= j < |w| :: Accepts(c, w[j])
  }

  ghost function Concat(ws: seq<string>): (w: string) {
    if ws == [] then "" else ws[0] + Concat(ws[1..])
  }

  ghost predicate Derivation(items: seq<Item>, ws: seq<string>) {
    |ws| == |items| && forall i | 0 <= i < |ws| :: InItem(items[i], ws[i])
  }

  /** w is a concatenation of one word for each item. */
  ghost predicate InLanguage(items: seq<Item>, w: string) {
    exists ws :: Derivation(items, ws) && Concat(ws) == w
  }

  /** Some word of the pattern starts `text`, and reaches its end when the pattern is anchored there. */
  ghost predicate MatchesAt(p: Pattern, text: string, k: nat)
    requires k <= |text|
  {
    InLanguage(p.items, text[..k]) && (p.end ==> k == |text|)
  }

  ghost predicate StartsWith(p: Pattern, text: string) {
    exists k :: 0 <= k <= |text| && MatchesAt(p, text, k)
  }

  /** grep's meaning of "the pattern matches the line". */
  ghost predicate Occurs(re: string, text: string) {
    if re != "" && re[0] == '^' then StartsWith(Parse(re[1..]), text)
    else exists i :: 0 <= i <= |text| && StartsWith(Parse(re), text[i..])
  }

  // The same, by recursion on the pattern.

  ghost predicate Here(items: seq<Item>, end: bool, text: string)
    decreases |items|, 0
  {
    if items == [] then end ==> text == ""
    else match items[0]
      case One(c) => text != "" && Accepts(c, text[0]) && Here(items[1..], end, text[1..])
      case Star(c) => exists k :: 0 <= k <= |text| && StarAt(c, items[1..], end, text, k)
  }

  ghost predicate StarAt(c: char, items: seq<Item>, end: bool, text: string, k: nat)
    requires k <= |text|
    decreases |items|, 1
  {
    (forall j | 0 <= j < k :: Accepts(c, text[j])) && Here(items, end, text[k..])
  }

  lemma LanguageCons(it: Item, items: seq<Item>, w: string, rest: string)
    requires InItem(it, w) && InLanguage(items, rest)
    ensures InLanguage([it] + items, w + rest)
  {
    var ws :| Derivation(items, ws) && Concat(ws) == rest;
    assert Derivation([it] + items, [w] + ws);
    assert ([w] + ws)[1..] == ws;
  }

  lemma LanguageUncons(items: seq<Item>, w: string) returns (k: nat)
    requires items != [] && InLanguage(items, w)
    ensures k <= |w| && InItem(items[0], w[..k]) && InLanguage(items[1..], w[k..])
  {
    var ws :| Derivation(items, ws) && Concat(ws) == w;
    k := |ws[0]|;
    assert w[..k] == ws[0] && w[k..] == Concat(ws[1..]);
    assert Derivation(items[1..], ws[1..]);
  }

  /** The recursive reading and the language agree. */
  lemma {:induction false} HereIff(items: seq<Item>, end: bool, text: string)
    ensures Here(items, end, text) <==> StartsWith(Pattern(items, end), text)
    decreases |items|
  {
    if Here(items, end, text) {
      HereIsMatch(items, end, text);
    }
    if StartsWith(Pattern(items, end), text) {
      MatchIsHere(items, end, text);
    }
  }

  lemma {:induction false} HereIsMatch(items: seq<Item>, end: bool, text: string)
    requires Here(items, end, text)
    ensures StartsWith(Pattern(items, end), text)
    decreases |items|
  {
    if items == [] {
      assert Derivation([], []) && text[..0] == Concat([]);
      assert MatchesAt(Pattern(items, end), text, 0);
    } else {
      var k := FirstWord(items, end, text);
      HereIsMatch(items[1..], end, text[k..]);
      MatchCons(items, end, text, k);
    }
  }

  lemma MatchCons(items: seq<Item>, end: bool, text: string, k: nat)
    requires items != [] && k <= |text| && InItem(items[0], text[..k])
    requires StartsWith(Pattern(items[1..], end), text[k..])
    ensures StartsWith(Pattern(items, end), text)
  {
    var rest := text[k..];
    var m :| 0 <= m <= |rest| && MatchesAt(Pattern(items[1..], end), rest, m);
    hide InLanguage, InItem;
    LanguageCons(items[0], items[1..], text[..k], rest[..m]);
    assert [items[0]] + items[1..] == items;
    assert text[..k] + rest[..m] == text[..k + m];
    assert MatchesAt(Pattern(items, end), text, k + m);
  }

  /** What the first item takes of the text. */
  lemma FirstWord(items: seq<Item>, end: bool, text: string) returns (k: nat)
    requires items != [] && Here(items, end, text)
    ensures k <= |text| && InItem(items[0], text[..k]) && Here(items[1..], end, text[k..])
  {
    match items[0]
    case One(c) => k := 1;
    case Star(c) =>
      var n :| 0 <= n <= |text| && StarAt(c, items[1..], end, text, n);
      k := n;
  }

  lemma {:induction false} HereStar(c: char, items: seq<Item>, end: bool, text: string)
    ensures Here([Star(c)] + items, end, text) <==> exists k :: 0 <= k <= |text| && StarAt(c, items, end, text, k)
  {
    var all := [Star(c)] + items;
    assert all[1..] == items && all[0] == Star(c);
    if Here(all, end, text) {
      var k := FirstWord(all, end, text);
      assert forall j | 0 <= j < k :: text[..k][j] == text[j];
      assert StarAt(c, items, end, text, k);
    }
    if k :| 0 <= k <= |text| && StarAt(c, items, end, text, k) {
      assert StarAt(c, all[1..], end, text, k);
      assert Here(all, end, text);
    }
  }

  lemma {:induction false} MatchIsHere(items: seq<Item>, end: bool, text: string)
    requires StartsWith(Pattern(items, end), text)
    ensures Here(items, end, text)
    decreases |items|
  {
    var m :| 0 <= m <= |text| && MatchesAt(Pattern(items, end), text, m);
    if items == [] {
      var ws :| Derivation(items, ws) && Concat(ws) == text[..m];
    } else {
      var k := LanguageUncons(items, text[..m]);
      assert text[..m][..k] == text[..k] && text[..m][k..] == text[k..][..m - k];
      assert MatchesAt(Pattern(items[1..], end), text[k..], m - k);
      MatchIsHere(items[1..], end, text[k..]);
      match items[0]
      case One(c) => assert text[..k][0] == text[0];
      case Star(c) =>
        assert forall j | 0 <= j < k :: text[..k][j] == text[j];
        assert StarAt(c, items[1..], end, text, k);
    }
  }

  // The matcher.

  /** match: search for re anywhere in text. */
  method Match(re: string, text: string) returns (found: bool)
    ensures found <==> Occurs(re, text)
  {
    if re != "" && re[0] == '^' {
      found := MatchHere(re[1..], text);
      HereIff(Parse(re[1..]).items, Parse(re[1..]).end, text);
      return;
    }
    var p := Parse(re);
    var i := 0;
    while true
      invariant 0 <= i <= |text| && forall j | 0 <= j < i :: !StartsWith(p, text[j..])
      decreases |text| - i
    {
      found := MatchHere(re, text[i..]);
      HereIff(p.items, p.end, text[i..]);
      if found {
        return true;
      }
      if i == |text| {
        return false;
      }
      i := i + 1;
    }
  }

  /** matchhere: search for re at the beginning of text. */
  method MatchHere(re: string, text: string) returns (found: bool)
    ensures found <==> Here(Parse(re).items, Parse(re).end, text)
    decreases |re|, 0
  {
    if re == "" {
      return true;
    }
    if |re| >= 2 && re[1] == '*' {
      found := MatchStar(re[0], re[2..], text);
      HereStar(re[0], Parse(re[2..]).items, Parse(re[2..]).end, text);
      assert Parse(re) == Pattern([Star(re[0])] + Parse(re[2..]).items, Parse(re[2..]).end);
      return;
    }
    if re == "$" {
      return text == "";
    }
    if text != "" && (re[0] == '.' || re[0] == text[0]) {
      found := MatchHere(re[1..], text[1..]);
      assert Parse(re).items[1..] == Parse(re[1..]).items;
      return;
    }
    return false;
  }

  /** matchstar: search for c*re at the beginning of text. */
  method MatchStar(c: char, re: string, text: string) returns (found: bool)
    ensures found <==> exists k :: 0 <= k <= |text| && StarAt(c, Parse(re).items, Parse(re).end, text, k)
    decreases |re|, 1
  {
    ghost var p := Parse(re);
    var i := 0;
    while true
      invariant 0 <= i <= |text| && forall j | 0 <= j < i :: Accepts(c, text[j])
      invariant forall k | 0 <= k < i :: !Here(p.items, p.end, text[k..])
      decreases |text| - i
    {
      found := MatchHere(re, text[i..]);
      if found {
        assert StarAt(c, p.items, p.end, text, i);
        return true;
      }
      if i == |text| || !(text[i] == c || c == '.') {
        return false;
      }
      i := i + 1;
    }
  }
}
