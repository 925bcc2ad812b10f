/**
 The parser for cgroup properties (criu/cgroup-props.c): very simplified YAML.

 The functions say what the text means; the classes do it with a stream pointer and a remaining length.
 */
module CgroupProps {
  import opened Wrappers

  datatype Strategy = Merge | Replace

  /** One controller of the text. */
  datatype Controller = Controller(name: string, strategy: Strategy, props: seq<string>)

  const QUOTE := '\"'

  // What the text means.

  /** skip_spaces */
  function Blank(s: string): (r: string)
    ensures |r| <= |s| && (r != [] ==> r[0] != ' ')
  {
    if s != [] && s[0] == ' ' then Blank(s[1..]) else s
  }

  /** What follows the word, if the text starts with it after blanks. */
  function After(s: string, word: string): (r: Option<string>)
    ensures r.Some? ==> |r.value| + |word| <= |s|
  {
    if word <= Blank(s) then Some(Blank(s)[|word|..]) else None
  }

  /** A non-empty text in quotes right at the start, and what follows. */
  function Quoted(s: string): (r: Option<(string, string)>)
    ensures r.Some? ==> |r.value.1| + 2 < |s|
  {
    if s == [] || s[0] != QUOTE then None
    else
      var k := IndexOf(s[1..], QUOTE);
      if 0 < k < |s| - 1 then Some((s[1..k + 1], s[k + 2..])) else None
  }

  /** A quote that is never closed. */
  predicate Unclosed(s: string) { s != [] && s[0] == QUOTE && IndexOf(s[1..], QUOTE) == |s| - 1 }

  /**
   A list of properties after its opening bracket and blanks: the properties, whether the closing bracket was
   seen, and what follows. An unclosed quote swallows the rest of the text.
   */
  datatype PropList = PropList(props: seq<string>, closed: bool, rest: string)

  function Properties(s: string): (l: Option<PropList>)
    ensures l.Some? ==> |l.value.rest| <= |s|
    decreases |s|
  {
    match Quoted(s)
    case None => Some(PropList([], false, if Unclosed(s) then [] else s))
    case Some((p, r)) =>
      match After(r, ",")
      case None =>
        if Blank(r) != [] && Blank(r)[0] == ']' then Some(PropList([p], true, Blank(r)[1..])) else None
      case Some(r') => Prepend(p, Properties(Blank(r')))
  }

  function Prepend(p: string, l: Option<PropList>): Option<PropList> {
    match l
    case None => None
    case Some(more) => Some(more.(props := [p] + more.props))
  }

  /** The end of a controller: a bracket still due, then a newline or the end of the text. */
  function ListEnd(l: PropList): (r: Option<string>)
    ensures r.Some? ==> |r.value| <= |l.rest|
  {
    match (if l.props == [] then After(l.rest, "]") else Some(l.rest))
    case None => None
    case Some(r) =>
      match After(r, "\n")
      case Some(r') => Some(r')
      case None => if Blank(r) == [] then Some([]) else None
  }

  function StrategyOf(s: string): Option<Strategy> {
    if s == "merge" then Some(Merge) else if s == "replace" then Some(Replace) else None
  }

  /** The fixed parts of a controller's text. */
  datatype Tokens = Tokens(nameEnd: string, strategy: string, strategyEnd: string, properties: string)

  const TOKENS := Tokens(":\n - ", "\"strategy\":", "\n - ", "\"properties\":")

  ghost predicate NotBlank(word: string) { word != [] && word[0] != ' ' }

  ghost predicate Good(k: Tokens) {
    NotBlank(k.nameEnd) && NotBlank(k.strategy) && NotBlank(k.strategyEnd) && NotBlank(k.properties)
  }

  /** The name of the strategy of a controller, after the controller's name. */
  function StrategyPart(s: string, k: Tokens): (r: Option<(string, string)>)
    ensures r.Some? ==> |r.value.1| <= |s|
  {
    match After(s, k.nameEnd) case None => None case Some(s1) =>
    match After(s1, k.strategy) case None => None case Some(s2) => Quoted(Blank(s2))
  }

  /** Up to the opening bracket of the properties. */
  function PropertiesPart(s: string, k: Tokens): (r: Option<string>)
    ensures r.Some? ==> |r.value| <= |s|
  {
    match After(s, k.strategyEnd) case None => None case Some(s1) =>
    match After(s1, k.properties) case None => None case Some(s2) => After(s2, "[")
  }

  /** The properties of a controller and the end of it. */
  function ListPart(s: string): (r: Option<(seq<string>, string)>)
    ensures r.Some? ==> |r.value.1| <= |s|
  {
    match Properties(s) case None => None case Some(l) =>
    match ListEnd(l) case None => None case Some(r) => Some((l.props, r))
  }

  /** One controller at the start of the text. */
  function Parsed(s: string, k: Tokens): (r: Option<(Controller, string)>)
    ensures r.Some? ==> |r.value.1| < |s|
  {
    match Quoted(s) case None => None case Some((name, s1)) =>
    match StrategyPart(s1, k) case None => None case Some((q, s2)) =>
    match StrategyOf(q) case None => None case Some(strategy) =>
    match PropertiesPart(s2, k) case None => None case Some(s3) =>
    match ListPart(Blank(s3)) case None => None case Some((props, s4)) => Some((Controller(name, strategy, props), s4))
  }

  /** The controllers of a text, as far as it can be parsed. */
  function Parse(s: string, k: Tokens): (bool, seq<Controller>)
    decreases |s|
  {
    if s == [] then (true, [])
    else
      match Parsed(s, k)
      case None => (false, [])
      case Some((c, r)) => var (ok, cs) := Parse(r, k); (ok, [c] + cs)
  }

  // The text of a list of controllers.

  /** A list of properties with its closing bracket, and behind it the text tail. */
  function PrintProps(ps: seq<string>, tail: string): string {
    if ps == [] then "]" + tail
    else InQuotes(ps[0]) + if |ps| == 1 then "]" + tail else "," + (" " + PrintProps(ps[1..], tail))
  }

  function InQuotes(q: string): string { [QUOTE] + q + [QUOTE] }

  function StrategyText(strategy: Strategy): string { if strategy == Merge then "merge" else "replace" }

  /** A controller, and behind it the text tail. */
  function PrintOne(c: Controller, k: Tokens, tail: string): string {
    InQuotes(c.name) + (k.nameEnd + (k.strategy + (" " + (InQuotes(StrategyText(c.strategy)) +
      (k.strategyEnd + (k.properties + (" " + ("[" + PrintProps(c.props, "\n" + tail)))))))))
  }

  function Print(cs: seq<Controller>, k: Tokens): string {
    if cs == [] then [] else PrintOne(cs[0], k, Print(cs[1..], k))
  }

  /** A name or property as it can be written: not empty and without a quote. */
  predicate Writable(s: string) { s != [] && QUOTE !in s }

  ghost predicate AllWritable(cs: seq<Controller>) {
    forall i :: 0 <= i < |cs| ==> Writable(cs[i].name) && forall j :: 0 <= j < |cs[i].props| ==> Writable(cs[i].props[j])
  }

  // Parsing what was printed.

  lemma AfterIt(word: string, tail: string)
    requires NotBlank(word)
    ensures After(word + tail, word) == Some(tail)
  {
    assert (word + tail)[0] == word[0];
    assert Blank(word + tail) == word + tail;
    assert word <= word + tail && (word + tail)[|word|..] == tail;
  }

  lemma SkipBlank(s: string)
    ensures Blank(" " + s) == Blank(s) && forall word :: After(" " + s, word) == After(s, word)
  {
    assert (" " + s)[1..] == s;
  }

  lemma QuotedIt(q: string, tail: string)
    requires Writable(q)
    ensures Quoted(InQuotes(q) + tail) == Some((q, tail)) && Blank(InQuotes(q) + tail) == InQuotes(q) + tail
  {
    var s := [QUOTE] + q + [QUOTE] + tail;
    var r := s[1..];
    assert r == q + [QUOTE] + tail;
    assert r[|q|] == QUOTE && forall i :: 0 <= i < |q| ==> r[i] == q[i];
    assert IndexOf(r, QUOTE) == |q|;
    assert s[1..|q| + 1] == q && s[|q| + 2..] == tail;
  }

  lemma NotHere(s: string, word: string)
    requires s != [] && word != [] && s[0] != ' ' && s[0] != word[0]
    ensures After(s, word) == None
  {
  }

  lemma LastProperty(p: string, tail: string)
    requires Writable(p)
    ensures Properties(InQuotes(p) + ("]" + tail)) == Some(PropList([p], true, tail))
  {
    QuotedIt(p, "]" + tail);
    NotHere("]" + tail, ",");
    assert ("]" + tail)[1..] == tail && Blank("]" + tail) == "]" + tail;
  }

  lemma MoreProperties(p: string, more: string)
    requires Writable(p) && Blank(more) == more
    ensures Properties(InQuotes(p) + ("," + (" " + more))) == Prepend(p, Properties(more))
  {
    QuotedIt(p, "," + (" " + more));
    AfterIt(",", " " + more);
    SkipBlank(more);
  }

  lemma HeadAndTail<T>(s: seq<T>)
    requires s != []
    ensures s == [s[0]] + s[1..] && (|s| == 1 ==> s == [s[0]])
  {
  }

  /** A printed list of properties, at least one, is read back up to its bracket. */
  lemma {:induction false} PropertiesBack(ps: seq<string>, tail: string)
    requires ps != [] && forall i :: 0 <= i < |ps| ==> Writable(ps[i])
    ensures var s := PrintProps(ps, tail); Properties(s) == Some(PropList(ps, true, tail)) && Blank(s) == s
    decreases |ps|
  {
    HeadAndTail(ps);
    if |ps| == 1 {
      LastProperty(ps[0], tail);
    } else {
      PropertiesBack(ps[1..], tail);
      MoreProperties(ps[0], PrintProps(ps[1..], tail));
    }
  }

  lemma ListEndBack(l: PropList, tail: string)
    requires l.rest == if l.props == [] then "]" + ("\n" + tail) else "\n" + tail
    ensures ListEnd(l) == Some(tail)
  {
    if l.props == [] { AfterIt("]", "\n" + tail); }
    AfterIt("\n", tail);
  }

  lemma NoProperties(tail: string)
    ensures Properties("]" + tail) == Some(PropList([], false, "]" + tail)) && Blank("]" + tail) == "]" + tail
  {
  }

  /** A printed list with its brackets and newline. */
  lemma ListBack(ps: seq<string>, tail: string)
    requires forall i :: 0 <= i < |ps| ==> Writable(ps[i])
    ensures var s := PrintProps(ps, "\n" + tail); Blank(s) == s && ListPart(s) == Some((ps, tail))
  {
    var rest := "\n" + tail;
    if ps == [] {
      NoProperties(rest);
      ListEndBack(PropList([], false, "]" + rest), tail);
    } else {
      PropertiesBack(ps, rest);
      ListEndBack(PropList(ps, true, rest), tail);
    }
  }

  lemma StrategyBack(q: string, k: Tokens, tail: string)
    requires Good(k) && Writable(q)
    ensures StrategyPart(k.nameEnd + (k.strategy + (" " + (InQuotes(q) + tail))), k) == Some((q, tail))
  {
    var s3 := InQuotes(q) + tail;
    AfterIt(k.nameEnd, k.strategy + (" " + s3));
    AfterIt(k.strategy, " " + s3);
    SkipBlank(s3);
    QuotedIt(q, tail);
  }

  lemma StrategyTextBack(strategy: Strategy)
    ensures Writable(StrategyText(strategy)) && StrategyOf(StrategyText(strategy)) == Some(strategy)
  {
  }

  lemma PropertiesPartBack(k: Tokens, tail: string)
    requires Good(k)
    ensures PropertiesPart(k.strategyEnd + (k.properties + (" " + ("[" + tail))), k) == Some(tail)
  {
    AfterIt(k.strategyEnd, k.properties + (" " + ("[" + tail)));
    AfterIt(k.properties, " " + ("[" + tail));
    SkipBlank("[" + tail);
    AfterIt("[", tail);
  }

  /** Putting the parts of a controller together. */
  lemma Assemble(s: string, k: Tokens, c: Controller, q: string, s1: string, s2: string, s3: string, tail: string)
    requires Quoted(s) == Some((c.name, s1)) && StrategyPart(s1, k) == Some((q, s2)) && StrategyOf(q) == Some(c.strategy)
    requires PropertiesPart(s2, k) == Some(s3) && ListPart(Blank(s3)) == Some((c.props, tail))
    ensures Parsed(s, k) == Some((c, tail))
  {
  }

  lemma OneBack(c: Controller, k: Tokens, tail: string)
    requires Good(k) && Writable(c.name) && forall j :: 0 <= j < |c.props| ==> Writable(c.props[j])
    ensures Parsed(PrintOne(c, k, tail), k) == Some((c, tail))
  {
    var q, s3 := StrategyText(c.strategy), PrintProps(c.props, "\n" + tail);
    var s2 := k.strategyEnd + (k.properties + (" " + ("[" + s3)));
    var s1 := k.nameEnd + (k.strategy + (" " + (InQuotes(q) + s2)));
    QuotedIt(c.name, s1);
    StrategyTextBack(c.strategy);
    StrategyBack(q, k, s2);
    PropertiesPartBack(k, s3);
    ListBack(c.props, tail);
    Assemble(InQuotes(c.name) + s1, k, c, q, s1, s2, s3, tail);
  }

  lemma ParseStep(s: string, k: Tokens, c: Controller, tail: string)
    requires Parsed(s, k) == Some((c, tail))
    ensures Parse(s, k) == (Parse(tail, k).0, [c] + Parse(tail, k).1)
  {
  }

  lemma OneMore(c: Controller, k: Tokens, tail: string, s: string)
    requires Good(k) && Writable(c.name) && (forall j :: 0 <= j < |c.props| ==> Writable(c.props[j])) && s == PrintOne(c, k, tail)
    ensures Parse(s, k) == (Parse(tail, k).0, [c] + Parse(tail, k).1)
  {
    OneBack(c, k, tail);
    ParseStep(s, k, c, tail);
  }

  /** Every list of controllers with names and properties that can be written is parsed back from its text. */
  lemma {:induction false} ParseBack(cs: seq<Controller>, k: Tokens, s: string)
    requires AllWritable(cs) && Good(k) && s == Print(cs, k)
    ensures Parse(s, k) == (true, cs)
    decreases |cs|
  {
    if cs == [] {
    } else {
      var tail := Print(cs[1..], k);
      ParseBack(cs[1..], k, tail);
      OneMore(cs[0], k, tail, s);
      HeadAndTail(cs);
    }
  }

  lemma TokensAreGood()
    ensures Good(TOKENS)
  {
  }

  /** The same with the documented words. */
  lemma DocumentedText(cs: seq<Controller>)
    requires AllWritable(cs)
    ensures Good(TOKENS) && Parse(Print(cs, TOKENS), TOKENS) == (true, cs)
  {
    TokensAreGood();
    ParseBack(cs, TOKENS, Print(cs, TOKENS));
  }

  // Lists that break off.

  /** A printed list that breaks off after its last comma, and behind that the text tail. */
  function BrokenOff(ps: seq<string>, tail: string): string
    requires ps != []
  {
    InQuotes(ps[0]) + ("," + (" " + if |ps| == 1 then tail else BrokenOff(ps[1..], tail)))
  }

  /** The list that tail begins is empty: it is left in place, or swallowed by an unclosed quote. */
  lemma NoneFollow(tail: string)
    requires Quoted(tail) == None
    ensures Properties(tail) == Some(PropList([], false, if Unclosed(tail) then [] else tail))
  {
  }

  lemma PrependTo(p: string, ps: seq<string>, rest: string)
    ensures Prepend(p, Some(PropList(ps, false, rest))) == Some(PropList([p] + ps, false, rest))
  {
  }

  lemma {:induction false} BrokenOffProperties(ps: seq<string>, tail: string, rest: string)
    requires ps != [] && forall i :: 0 <= i < |ps| ==> Writable(ps[i])
    requires Blank(tail) == tail && Quoted(tail) == None && rest == if Unclosed(tail) then [] else tail
    ensures var s := BrokenOff(ps, tail); Properties(s) == Some(PropList(ps, false, rest)) && Blank(s) == s
    decreases |ps|
  {
    HeadAndTail(ps);
    if |ps| == 1 {
      NoneFollow(tail);
      MoreProperties(ps[0], tail);
      PrependTo(ps[0], [], rest);
    } else {
      BrokenOffProperties(ps[1..], tail, rest);
      MoreProperties(ps[0], BrokenOff(ps[1..], tail));
      PrependTo(ps[0], ps[1..], rest);
    }
  }

  lemma OpenListEnd(ps: seq<string>, rest: string)
    requires ps != [] && Blank(rest) == rest
    ensures ListEnd(PropList(ps, false, rest)) ==
      if rest == [] then Some([]) else if rest[0] == '\n' then Some(rest[1..]) else None
  {
    if rest != [] && rest[0] == '\n' { assert "\n" <= rest; }
  }

  lemma ListPartIs(s: string, l: PropList)
    requires Properties(s) == Some(l)
    ensures ListPart(s) == if ListEnd(l).Some? then Some((l.props, ListEnd(l).value)) else None
  {
  }

  /**
   A list that breaks off after a comma, where no further property can be read, is accepted exactly
   when the text ends there, a newline follows, or a quote is opened and never closed; the properties
   before the comma are kept and an unclosed quote swallows the rest of the text.
   */
  lemma BrokenOffExactlyWhen(ps: seq<string>, tail: string, s: string)
    requires ps != [] && forall i :: 0 <= i < |ps| ==> Writable(ps[i])
    requires Blank(tail) == tail && Quoted(tail) == None && s == BrokenOff(ps, tail)
    ensures ListPart(s).Some? <==> tail == [] || tail[0] == '\n' || Unclosed(tail)
    ensures ListPart(s).Some? ==> ListPart(s).value == (ps, if tail == [] || Unclosed(tail) then [] else tail[1..])
  {
    var rest := if Unclosed(tail) then [] else tail;
    BrokenOffProperties(ps, tail, rest);
    OpenListEnd(ps, rest);
    ListPartIs(s, PropList(ps, false, rest));
  }

  /** A printed list whose last property is followed by tail. */
  function Unended(ps: seq<string>, tail: string): string
    requires ps != []
  {
    InQuotes(ps[0]) + if |ps| == 1 then tail else "," + (" " + Unended(ps[1..], tail))
  }

  /** After a property only a comma or the bracket is accepted: a list that breaks off without a comma is refused. */
  lemma {:induction false} UnendedRefused(ps: seq<string>, tail: string, s: string)
    requires ps != [] && (forall i :: 0 <= i < |ps| ==> Writable(ps[i])) && s == Unended(ps, tail)
    requires Blank(tail) == [] || (Blank(tail)[0] != ',' && Blank(tail)[0] != ']')
    ensures Properties(s) == None && Blank(s) == s && ListPart(s) == None
    decreases |ps|
  {
    if |ps| == 1 {
      QuotedIt(ps[0], tail);
      RefusedHere(s, ps[0], tail);
    } else {
      var more := Unended(ps[1..], tail);
      UnendedRefused(ps[1..], tail, more);
      QuotedIt(ps[0], "," + (" " + more));
      MoreProperties(ps[0], more);
    }
  }

  lemma RefusedHere(s: string, p: string, r: string)
    requires Quoted(s) == Some((p, r)) && (Blank(r) == [] || (Blank(r)[0] != ',' && Blank(r)[0] != ']'))
    ensures Properties(s) == None
  {
  }

  /** An empty list is accepted exactly when its bracket is there and a newline, or the end, follows it. */
  lemma EmptyListExactlyWhen(tail: string)
    requires Blank(tail) == tail && Quoted(tail) == None
    ensures ListPart(tail).Some? <==>
      tail != [] && tail[0] == ']' && (Blank(tail[1..]) == [] || Blank(tail[1..])[0] == '\n')
  {
    NoneFollow(tail);
    var rest := if Unclosed(tail) then [] else tail;
    ListPartIs(tail, PropList([], false, rest));
    if rest != [] && rest[0] == ']' {
      assert rest == "]" + rest[1..];
      AfterIt("]", rest[1..]);
      var b := Blank(rest[1..]);
      if b != [] && b[0] == '\n' { assert "\n" <= b; }
    }
  }

  // The parser with its pointer and length.

  class Stream {
    const text: string
    var pos: nat
    var len: nat

    ghost predicate Valid()
      reads this
    {
      pos + len <= |text|
    }

    /** What the parser still sees. */
    ghost function Rest(): string
      requires Valid()
      reads this
    {
      text[pos..pos + len]
    }

    /** The remaining length matches the bytes consumed. */
    ghost predicate Synced()
      reads this
    {
      pos + len == |text|
    }

    constructor (text: string)
      ensures Valid() && Synced() && Rest() == text && this.text == text
    {
      this.text := text;
      pos, len := 0, |text|;
    }

    /** skip_spaces; false stands for NULL */
    method SkipSpaces() returns (some: bool)
      requires Valid()
      modifies this`pos, this`len
      ensures Valid() && pos + len == old(pos + len) && Rest() == Blank(old(Rest())) && (some <==> old(len) != 0)
    {
      some := len != 0;
      ghost var before := Rest();
      while len != 0 && text[pos] == ' '
        invariant Valid() && pos + len == old(pos + len) && Blank(Rest()) == Blank(before)
        decreases len
      {
        ghost var r := Rest();
        assert r[0] == ' ';
        pos, len := pos + 1, len - 1;
        assert Rest() == r[1..];
      }
      assert Rest() != [] ==> Rest()[0] == text[pos];
    }

    /** eat_symbol without blanks */
    method EatHere(sym: char) returns (ok: bool)
      requires Valid()
      modifies this`pos, this`len
      ensures Valid() && pos + len == old(pos + len)
      ensures ok <==> old(Rest()) != [] && old(Rest())[0] == sym
      ensures Rest() == if ok then old(Rest())[1..] else old(Rest())
      ensures !ok ==> pos == old(pos)
    {
      if len == 0 || text[pos] != sym {
        return false;
      }
      pos, len := pos + 1, len - 1;
      return true;
    }

    /** The loop of eat_symbols: all of the word, or nothing. */
    method EatAllHere(word: string) returns (ok: bool)
      requires Valid()
      modifies this`pos, this`len
      ensures Valid() && pos + len == old(pos + len)
      ensures ok <==> word <= old(Rest())
      ensures Rest() == if ok then old(Rest())[|word|..] else old(Rest())
    {
      ghost var r := Rest();
      var pos0, len0, i := pos, len, 0;
      while i < |word|
        invariant 0 <= i <= |word| && i <= |r| && pos == pos0 + i && len == len0 - i && Valid() && Rest() == r[i..]
        invariant forall j :: 0 <= j < i ==> word[j] == r[j]
      {
        ok := EatHere(word[i]);
        if !ok {
          pos, len := pos0, len0;
          assert |r| <= i || word[i] != r[i];
          return;
        }
        assert r[i..][0] == r[i] && r[i..][1..] == r[i + 1..];
        i := i + 1;
      }
      return true;
    }

    /** eat_symbol and eat_symbols after blanks */
    method EatSymbols(word: string) returns (ok: bool)
      requires Valid() && word != []
      modifies this`pos, this`len
      ensures Valid() && pos + len == old(pos + len)
      ensures After(old(Rest()), word) == if ok then Some(Rest()) else None
      ensures !ok ==> Rest() == Blank(old(Rest()))
    {
      var some := SkipSpaces();
      if !some {
        return false;
      }
      ok := EatAllHere(word);
    }

    /** eat_word: the same by comparing at once. */
    method EatWord(word: string) returns (ok: bool)
      requires Valid() && word != []
      modifies this`pos, this`len
      ensures Valid() && pos + len == old(pos + len)
      ensures After(old(Rest()), word) == if ok then Some(Rest()) else None
    {
      var some := SkipSpaces();
      if !some {
        return false;
      }
      ok := EatWordHere(word);
    }

    method EatWordHere(word: string) returns (ok: bool)
      requires Valid()
      modifies this`pos, this`len
      ensures Valid() && pos + len == old(pos + len)
      ensures ok <==> word <= old(Rest())
      ensures Rest() == if ok then old(Rest())[|word|..] else old(Rest())
    {
      ok := len >= |word| && text[pos..pos + |word|] == word;
      assert len >= |word| ==> Rest()[..|word|] == text[pos..pos + |word|];
      if ok {
        pos, len := pos + |word|, len - |word|;
      }
    }

    /**
     get_quoted. A failure inside the quotes leaves the pointer but not the length: an unclosed quote
     ends the text, an empty one costs a byte.
     */
    method GetQuoted(skipWs: bool) returns (q: Option<string>)
      requires Valid() && Synced() && (!skipWs ==> len > 0)
      modifies this`pos, this`len
      ensures Valid()
      ensures var r := if skipWs then Blank(old(Rest())) else old(Rest());
              match Quoted(r)
              case Some((t, rest)) => q == Some(t) && Rest() == rest && Synced()
              case None => && q == None
                           && Rest() == (if Unclosed(r) then [] else if r != [] && r[0] == QUOTE then r[..|r| - 1] else r)
                           && (Synced() || (r != [] && r[0] == QUOTE))
    {
      if skipWs {
        var some := SkipSpaces();
        if !some {
          return None;
        }
      }
      ghost var r := Rest();
      assert r != [] ==> r[0] == text[pos];
      if len == 0 || text[pos] != QUOTE {
        return None;
      }
      q := CloseQuote();
    }

    /** The loop of get_quoted: on to the closing quote, or to the end; the length goes down on the way. */
    method ToQuote() returns (p: nat)
      requires Valid() && Synced() && Rest() != []
      modifies this`len
      ensures Valid() && p == pos + 1 + IndexOf(old(Rest())[1..], QUOTE) && p + len == |text|
    {
      ghost var r := Rest();
      p := pos + 1;
      len := len - 1;
      while len != 0
        invariant pos < p && p + len == |text| && p - pos - 1 <= IndexOf(r[1..], QUOTE)
        decreases len
      {
        assert r[1..][p - pos - 1] == text[p];
        if text[p] == QUOTE {
          return;
        }
        p, len := p + 1, len - 1;
      }
    }

    /** The rest of get_quoted, at an opening quote. */
    method CloseQuote() returns (q: Option<string>)
      requires Valid() && Synced() && Rest() != [] && Rest()[0] == QUOTE
      modifies this`pos, this`len
      ensures Valid()
      ensures match Quoted(old(Rest()))
              case Some((t, rest)) => q == Some(t) && Rest() == rest && Synced()
              case None => q == None && Rest() == if Unclosed(old(Rest())) then [] else old(Rest())[..old(len) - 1]
    {
      ghost var r := Rest();
      var p := ToQuote();
      QuotedAt(text, pos, r, p);
      if len == 0 {
        return None;
      }
      if p == pos + 1 {
        return None;
      }
      q := Some(text[pos + 1..p]);
      pos, len := p + 1, len - 1;
    }
  }

  lemma Pieces(text: string, at: nat, r: string, k: nat)
    requires at + |r| <= |text| && r == text[at..at + |r|] && k + 2 <= |r|
    ensures r[1..k + 1] == text[at + 1..at + 1 + k] && r[k + 2..] == text[at + k + 2..at + |r|]
  {
    assert forall i :: 0 <= i < |r| ==> r[i] == text[at + i];
  }

  /** What Quoted says of the text from the opening quote at on, when p is the place of the closing one. */
  lemma QuotedAt(text: string, at: nat, r: string, p: nat)
    requires at + |r| == |text| && r == text[at..] && r != [] && r[0] == QUOTE && p == at + 1 + IndexOf(r[1..], QUOTE)
    ensures p <= |text| && (p == |text| <==> Unclosed(r))
    ensures p < |text| && p == at + 1 ==> Quoted(r) == None && r[..|r| - 1] == text[at..|text| - 1]
    ensures p == |text| ==> Quoted(r) == None
    ensures at + 1 < p < |text| ==> Quoted(r) == Some((text[at + 1..p], text[p + 1..]))
  {
    if at + 1 < p < |text| { Pieces(text, at, r, p - at - 1); }
  }

  /** The properties ps in front of a list. */
  ghost function Add(ps: seq<string>, l: Option<PropList>): Option<PropList> {
    match l
    case None => None
    case Some(more) => Some(more.(props := ps + more.props))
  }

  lemma AddOne(ps: seq<string>, p: string, l: Option<PropList>)
    ensures Add(ps, Prepend(p, l)) == Add(ps + [p], l)
  {
    if l.Some? { assert ps + ([p] + l.value.props) == (ps + [p]) + l.value.props; }
  }

  lemma AddNone(l: Option<PropList>)
    ensures Add([], l) == l
  {
    if l.Some? { assert [] + l.value.props == l.value.props; }
  }

  /** The stream stands at rest, but for the byte an empty quote costs. */
  ghost predicate Stands(seen: string, rest: string) {
    seen == rest || (|rest| >= 2 && rest[0] == QUOTE && seen == rest[..|rest| - 1])
  }

  /** Length and pointer match, unless the parser stopped in a quote. */
  ghost predicate InStep(st: Stream)
    requires st.Valid()
    reads st
  {
    st.Synced() || st.Rest() == [] || st.Rest()[0] == QUOTE
  }

  datatype Step = Stop | Last(p: string) | More(p: string) | Broken

  /** What one property of the list says about the list. */
  ghost predicate Says(step: Step, b: string, seen: string) {
    match step
    case Stop => var rest := if Unclosed(b) then [] else b;
                 Properties(b) == Some(PropList([], false, rest)) && Stands(seen, rest)
    case Last(p) => Properties(b) == Some(PropList([p], true, seen))
    case More(p) => Properties(b) == Prepend(p, Properties(Blank(seen)))
    case Broken => Properties(b) == None
  }

  lemma NoneHere(b: string)
    requires Quoted(b) == None
    ensures Properties(b) == Some(PropList([], false, if Unclosed(b) then [] else b))
  {
  }

  lemma MoreHere(b: string, p: string, r: string, r': string)
    requires Quoted(b) == Some((p, r)) && After(r, ",") == Some(r')
    ensures Properties(b) == Prepend(p, Properties(Blank(r')))
  {
  }

  lemma LastHere(b: string, p: string, r: string)
    requires Quoted(b) == Some((p, r)) && After(r, ",") == None
    ensures Properties(b) == if Blank(r) != [] && Blank(r)[0] == ']' then Some(PropList([p], true, Blank(r)[1..])) else None
  {
  }

  /** What follows a property: a comma, a bracket or an error. */
  ghost predicate Follows(step: Step, p: string, r: string, seen: string) {
    match step
    case Stop => false
    case Last(p') => p' == p && After(r, ",") == None && Blank(r) != [] && Blank(r)[0] == ']' && seen == Blank(r)[1..]
    case More(p') => p' == p && After(r, ",") == Some(seen)
    case Broken => After(r, ",") == None && !(Blank(r) != [] && Blank(r)[0] == ']')
  }

  method AfterProperty(st: Stream, p: string) returns (step: Step)
    requires st.Valid() && st.Synced()
    modifies st`pos, st`len
    ensures st.Valid() && st.Synced() && st.len <= old(st.len) && Follows(step, p, old(st.Rest()), st.Rest())
  {
    var comma := st.EatSymbols(",");
    if comma {
      return More(p);
    }
    var bracket := st.EatHere(']');
    return if bracket then Last(p) else Broken;
  }

  lemma FollowsSays(step: Step, b: string, p: string, r: string, seen: string)
    requires Quoted(b) == Some((p, r)) && Follows(step, p, r, seen)
    ensures Says(step, b, seen)
  {
    if step.More? { MoreHere(b, p, r, seen); } else { LastHere(b, p, r); }
  }

  /** One round of the loop over the properties. */
  method ReadProperty(st: Stream) returns (step: Step)
    requires st.Valid() && st.Synced()
    modifies st`pos, st`len
    ensures st.Valid() && InStep(st) && (!step.Stop? ==> st.Synced()) && (step.More? ==> st.len < old(st.len))
    ensures Says(step, Blank(old(st.Rest())), st.Rest())
  {
    ghost var b := Blank(st.Rest());
    var q := st.GetQuoted(true);
    if q == None {
      NoneHere(b);
      return Stop;
    }
    ghost var r := st.Rest();
    step := AfterProperty(st, q.value);
    FollowsSays(step, b, q.value, r, st.Rest());
  }

  /** The list of properties is read: either all of it, or the stream stands where no property follows. */
  method ReadProperties(st: Stream) returns (props: Option<seq<string>>)
    requires st.Valid() && st.Synced()
    modifies st`pos, st`len
    ensures st.Valid() && InStep(st)
    ensures Read(props, Properties(Blank(old(st.Rest()))), st.Rest())
  {
    ghost var start := Properties(Blank(st.Rest()));
    var ps := [];
    AddNone(start);
    while true
      invariant st.Valid() && st.Synced() && start == Add(ps, Properties(Blank(st.Rest())))
      decreases st.len
    {
      var step := ReadProperty(st);
      match step {
        case Stop =>
          assert ps + [] == ps;
          return Some(ps);
        case Broken =>
          return None;
        case Last(p) =>
          return Some(ps + [p]);
        case More(p) =>
          AddOne(ps, p, Properties(Blank(st.Rest())));
          ps := ps + [p];
      }
    }
  }

  ghost predicate Read(props: Option<seq<string>>, l: Option<PropList>, seen: string) {
    && (props.Some? <==> l.Some?)
    && (props.Some? ==> props.value == l.value.props && Stands(seen, l.value.rest))
  }

  /** The end of the list after what ReadProperties left. */
  method ReadListEnd(st: Stream, props: seq<string>, ghost l: PropList) returns (ok: bool)
    requires st.Valid() && InStep(st) && l.props == props && Stands(st.Rest(), l.rest)
    modifies st`pos, st`len
    ensures st.Valid() && (ok ==> st.Synced() || st.Rest() == [])
    ensures ListEnd(l) == if ok then Some(st.Rest()) else None
  {
    if props == [] {
      var bracket := st.EatSymbols("]");
      if !bracket {
        return false;
      }
    }
    var newline := st.EatSymbols("\n");
    return newline || st.len == 0;
  }

  /** The properties of a controller, from the bracket to the end of the line. */
  method ReadList(st: Stream) returns (props: Option<seq<string>>)
    requires st.Valid() && st.Synced()
    modifies st`pos, st`len
    ensures st.Valid() && (props.Some? ==> st.Synced() || st.Rest() == [])
    ensures ListPart(Blank(old(st.Rest()))) == if props.Some? then Some((props.value, st.Rest())) else None
  {
    ghost var l := Properties(Blank(st.Rest()));
    props := ReadProperties(st);
    if props.Some? {
      var ok := ReadListEnd(st, props.value, l.value);
      if !ok {
        props := None;
      }
    }
  }

  /** The name of the strategy. */
  method ReadStrategy(st: Stream, k: Tokens) returns (q: Option<string>)
    requires st.Valid() && st.Synced() && Good(k)
    modifies st`pos, st`len
    ensures st.Valid() && (q.Some? ==> st.Synced())
    ensures StrategyPart(old(st.Rest()), k) == if q.Some? then Some((q.value, st.Rest())) else None
  {
    var ok := st.EatSymbols(k.nameEnd);
    if !ok {
      return None;
    }
    ok := st.EatWord(k.strategy);
    if !ok {
      return None;
    }
    q := st.GetQuoted(true);
  }

  method ReadPropertiesWord(st: Stream, k: Tokens) returns (ok: bool)
    requires st.Valid() && st.Synced() && Good(k)
    modifies st`pos, st`len
    ensures st.Valid() && st.Synced()
    ensures PropertiesPart(old(st.Rest()), k) == if ok then Some(st.Rest()) else None
  {
    ok := st.EatSymbols(k.strategyEnd);
    if !ok {
      return;
    }
    ok := st.EatWord(k.properties);
    if !ok {
      return;
    }
    ok := st.EatSymbols("[");
  }

  /** One round of the main loop of cgp_parse_stream. */
  method ReadController(st: Stream, k: Tokens) returns (c: Option<Controller>)
    requires st.Valid() && st.Synced() && st.len > 0 && Good(k)
    modifies st`pos, st`len
    ensures st.Valid() && (c.Some? ==> st.Synced() || st.Rest() == [])
    ensures Parsed(old(st.Rest()), k) == if c.Some? then Some((c.value, st.Rest())) else None
  {
    var name := st.GetQuoted(false);
    if name == None {
      return None;
    }
    var q := ReadStrategy(st, k);
    if q == None {
      return None;
    }
    var strategy := StrategyOf(q.value);
    if strategy == None {
      return None;
    }
    var ok := ReadPropertiesWord(st, k);
    if !ok {
      return None;
    }
    var props := ReadList(st);
    if props == None {
      return None;
    }
    return Some(Controller(name.value, strategy.value, props.value));
  }

  // The table of controllers.

  datatype Entry = Entry(name: string, props: seq<string>)

  /** The properties recorded for a controller. */
  function Lookup(list: seq<Entry>, name: string): Option<seq<string>> {
    if list == [] then None
    else if list[0].name == name then Some(list[0].props)
    else Lookup(list[1..], name)
  }

  ghost predicate Unique(list: seq<Entry>) {
    forall i, j :: 0 <= i < j < |list| ==> list[i].name != list[j].name
  }

  /** What a list of controllers makes of the properties of one: merging adds, replacing starts over. */
  ghost function Effective(before: Option<seq<string>>, cs: seq<Controller>, name: string): Option<seq<string>>
    decreases |cs|
  {
    if cs == [] then before
    else
      var last := cs[|cs| - 1];
      var sofar := Effective(before, cs[..|cs| - 1], name);
      if last.name != name then sofar
      else if last.strategy == Merge && sofar.Some? then Some(sofar.value + last.props)
      else Some(last.props)
  }

  lemma {:induction false} LookupAt(list: seq<Entry>, i: nat, name: string)
    requires i <= |list| && (forall k :: 0 <= k < i ==> list[k].name != name)
    ensures i < |list| && list[i].name == name ==> Lookup(list, name) == Some(list[i].props)
    ensures i == |list| ==> Lookup(list, name) == None
  {
    if i > 0 { LookupAt(list[1..], i - 1, name); }
  }

  lemma {:induction false} LookupChanged(list: seq<Entry>, i: nat, e: Entry, name: string)
    requires i < |list| && e.name == list[i].name && e.name != name
    ensures Lookup(list[i := e], name) == Lookup(list, name)
  {
    if i == 0 {
      assert list[i := e][1..] == list[1..];
    } else if list[0].name != name {
      LookupChanged(list[1..], i - 1, e, name);
      assert list[i := e][1..] == list[1..][i - 1 := e];
    }
  }

  lemma {:induction false} LookupRemoved(list: seq<Entry>, i: nat, name: string)
    requires i < |list| && list[i].name != name
    ensures Lookup(list[..i] + list[i + 1..], name) == Lookup(list, name)
  {
    if i == 0 {
      assert list[..i] + list[i + 1..] == list[1..];
    } else {
      var less := list[..i] + list[i + 1..];
      assert less[1..] == list[1..][..i - 1] + list[1..][i..];
      LookupRemoved(list[1..], i - 1, name);
    }
  }

  class Table {
    var list: seq<Entry>

    constructor ()
      ensures list == []
    {
      list := [];
    }

    /** cgp_get_props */
    method GetProps(name: string) returns (r: Option<seq<string>>)
      ensures r == Lookup(list, name)
    {
      var i := 0;
      while i < |list|
        invariant i <= |list| && forall k :: 0 <= k < i ==> list[k].name != name
      {
        if list[i].name == name {
          LookupAt(list, i, name);
          return Some(list[i].props);
        }
        i := i + 1;
      }
      LookupAt(list, i, name);
      return None;
    }

    /** cgp_handle_props: no name is ever listed twice. */
    method HandleProps(c: Controller)
      requires Unique(list)
      modifies this
      ensures Unique(list)
      ensures forall name {:trigger Lookup(list, name)} :: Lookup(list, name) == Effective(Lookup(old(list), name), [c], name)
    {
      ghost var before := list;
      var i := 0;
      while i < |list| && list[i].name != c.name
        invariant i <= |list| && list == before && forall k :: 0 <= k < i ==> list[k].name != c.name
      {
        i := i + 1;
      }
      LookupAt(before, i, c.name);
      if i < |list| && c.strategy == Merge {
        var e := Entry(c.name, list[i].props + c.props);
        list := list[i := e];
        LookupAt(list, i, c.name);
        forall name | name != c.name ensures Lookup(list, name) == Lookup(before, name) {
          LookupChanged(before, i, e, name);
        }
      } else {
        if i < |list| {
          list := list[..i] + list[i + 1..];
          forall name | name != c.name ensures Lookup(list, name) == Lookup(before, name) {
            LookupRemoved(before, i, name);
          }
        }
        list := [Entry(c.name, c.props)] + list;
        ghost var tail := list[1..];
      }
      forall name ensures Lookup(list, name) == Effective(Lookup(before, name), [c], name) {
        assert [c][..0] == [];
      }
    }

    /**
     cgp_parse_stream: the table ends as the controllers of the text say, in their order, as far as the
     text could be parsed.
     */
    method ParseStream(text: string, k: Tokens) returns (ok: bool)
      requires Unique(list) && Good(k)
      modifies this
      ensures Unique(list) && ok == Parse(text, k).0
      ensures forall name {:trigger Lookup(list, name)} :: Lookup(list, name) == Effective(Lookup(old(list), name), Parse(text, k).1, name)
    {
      var st := new Stream(text);
      ghost var before := list;
      ghost var cs: seq<Controller> := [];
      NothingBefore(Parse(text, k).1);
      while st.len != 0
        invariant st.Valid() && (st.Synced() || st.Rest() == []) && fresh(st) && Unique(list)
        invariant Parse(text, k) == (Parse(st.Rest(), k).0, cs + Parse(st.Rest(), k).1)
        invariant forall name {:trigger Lookup(list, name)} :: Lookup(list, name) == Effective(Lookup(before, name), cs, name)
        decreases st.len
      {
        ghost var s := st.Rest();
        var c := ReadController(st, k);
        if c == None {
          ParseStops(s, k);
          assert cs + [] == cs;
          return false;
        }
        ParseStep(s, k, c.value, st.Rest());
        ghost var was, sofar := list, cs;
        HandleProps(c.value);
        cs := cs + [c.value];
        ParseMore(sofar, c.value, Parse(st.Rest(), k).1);
        forall name ensures Lookup(list, name) == Effective(Lookup(before, name), cs, name) {
          EffectiveStep(Lookup(before, name), sofar, c.value, name);
        }
      }
      assert cs + [] == cs;
      return true;
    }

    /** Parsing the documented text of a list of controllers succeeds and leaves the fold of merge and replace over it. */
    method ParseDocumented(cs: seq<Controller>) returns (ok: bool)
      requires Unique(list) && AllWritable(cs)
      modifies this
      ensures ok && Unique(list)
      ensures forall name {:trigger Lookup(list, name)} :: Lookup(list, name) == Effective(Lookup(old(list), name), cs, name)
    {
      DocumentedText(cs);
      ok := ParseStream(Print(cs, TOKENS), TOKENS);
    }
  }

  lemma ParseStops(s: string, k: Tokens)
    requires s != [] && Parsed(s, k) == None
    ensures Parse(s, k) == (false, [])
  {
  }

  lemma NothingBefore(cs: seq<Controller>)
    ensures [] + cs == cs
  {
  }

  lemma ParseMore(cs: seq<Controller>, c: Controller, more: seq<Controller>)
    ensures cs + ([c] + more) == (cs + [c]) + more
  {
  }

  lemma EffectiveStep(before: Option<seq<string>>, cs: seq<Controller>, c: Controller, name: string)
    ensures Effective(before, cs + [c], name) == Effective(Effective(before, cs, name), [c], name)
  {
    assert (cs + [c])[..|cs|] == cs && [c][..0] == [];
  }
}
