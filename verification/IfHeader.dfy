/** The If header of section 10.4 of RFC 4918, as internal/dav/ifheader.go reads it. */
module IfHeader {
  import opened Text

  datatype Condition = Condition(not: bool, token: string, etag: string)

  /** A conjunction, and what it is about ("" for the resource asked for). */
  datatype IfList = IfList(resourceTag: string, conditions: seq<Condition>)

  datatype Tok = Eof | Bad | Str(text: string) | Not | Angle(text: string) | Square(text: string) | Single(c: char)

  datatype Lexed = Lexed(tok: Tok, rest: string)

  predicate Blank(c: char) { c == ' ' || c == '\t' }

  predicate Delimits(c: char) {
    c == '\t' || c == ' ' || c == '(' || c == ')' || c == '<' || c == '>' || c == '[' || c == ']'
  }

  function SkipBlank(s: string): (r: string)
    ensures |r| <= |s| && (r == "" || !Blank(r[0]))
  {
    if s != "" && Blank(s[0]) then SkipBlank(s[1..]) else s
  }

  /** How far a word goes. */
  function WordLen(s: string): (n: nat)
    ensures n <= |s| && (n < |s| ==> Delimits(s[n]))
    ensures forall i :: 0 <= i < n ==> !Delimits(s[i])
  {
    if s == "" || Delimits(s[0]) then 0 else 1 + WordLen(s[1..])
  }

  /** The next token and what is left. Every step short of the end of the input uses
      up at least a byte of it. */
  function Lex(s: string): (l: Lexed)
    ensures l.tok.Eof? || l.tok.Bad? ==> l.rest == ""
    ensures !l.tok.Eof? ==> |l.rest| < |s|
  {
    var t := SkipBlank(s);
    if t == "" then Lexed(Eof, "")
    else
      var i := WordLen(t);
      if i != 0 then Lexed(if t[..i] == "Not" then Not else Str(t[..i]), t[i..])
      else if t[0] == '<' then Enclosed(t, '>')
      else if t[0] == '[' then Enclosed(t, ']')
      else Lexed(Single(t[0]), t[1..])
  }

  function Enclosed(t: string, close: char): (l: Lexed)
    requires t != "" && t[0] != close
    ensures l.tok.Bad? ==> l.rest == ""
    ensures !l.tok.Eof? && |l.rest| < |t|
  {
    var j := FirstIndex(t, close);
    if j < 0 then Lexed(Bad, "")
    else Lexed(if close == '>' then Angle(t[1..j]) else Square(t[1..j]), t[j + 1..])
  }

  datatype Parsed<+T> = Fail | Got(value: T, rest: string)

  function ParseCondition(s: string): (p: Parsed<Condition>)
    ensures p.Got? ==> |p.rest| < |s|
  {
    var first := Lex(s);
    var not := first.tok.Not?;
    var l := if not then Lex(first.rest) else first;
    match l.tok
    case Str(text) => Got(Condition(not, text, ""), l.rest)
    case Angle(text) => Got(Condition(not, text, ""), l.rest)
    case Square(text) => Got(Condition(not, "", text), l.rest)
    case _ => Fail
  }

  /** The conditions up to the end of a list. */
  function ParseConditions(s: string): (p: Parsed<seq<Condition>>)
    ensures p.Got? ==> |p.rest| < |s|
    decreases |s|
  {
    var l := Lex(s);
    if l.tok == Single(')') then Got([], l.rest)
    else match ParseCondition(s)
      case Fail => Fail
      case Got(c, rest) =>
        match ParseConditions(rest)
        case Fail => Fail
        case Got(more, after) => Got([c] + more, after)
  }

  function ParseList(s: string): (p: Parsed<IfList>)
    ensures p.Got? ==> |p.rest| < |s| && p.value.resourceTag == ""
  {
    var l := Lex(s);
    if l.tok != Single('(') then Fail
    else match ParseConditions(l.rest)
      case Fail => Fail
      case Got(conditions, rest) => if conditions == [] then Fail else Got(IfList("", conditions), rest)
  }

  function ParseNoTagLists(s: string): Option<seq<IfList>>
    decreases |s|
  {
    match ParseList(s)
    case Fail => None
    case Got(l, rest) =>
      if rest == "" then Some([l])
      else match ParseNoTagLists(rest)
        case None => None
        case Some(more) => Some([l] + more)
  }

  /** Lists under tags; `n` lists have come since the last one. */
  function ParseTaggedLists(s: string, first: bool, tag: string, n: nat): Option<seq<IfList>>
    decreases |s|
  {
    var l := Lex(s);
    match l.tok
    case Angle(text) => if !first && n == 0 then None else ParseTaggedLists(l.rest, false, text, 0)
    case Single(c) =>
      if c != '(' then None
      else (match ParseList(s)
        case Fail => None
        case Got(list, rest) =>
          if rest == "" then Some([list.(resourceTag := tag)])
          else match ParseTaggedLists(rest, false, tag, n + 1)
            case None => None
            case Some(more) => Some([list.(resourceTag := tag)] + more))
    case _ => None
  }

  predicate Space(c: char) {
    c == ' ' || ('\t' <= c <= '\r')
  }

  function TrimLeft(s: string): string {
    if s != "" && Space(s[0]) then TrimLeft(s[1..]) else s
  }

  function TrimRight(s: string): string {
    if s != "" && Space(s[|s| - 1]) then TrimRight(s[..|s| - 1]) else s
  }

  function Parse(header: string): Option<seq<IfList>> {
    var s := TrimRight(TrimLeft(header));
    match Lex(s).tok
    case Single(c) => if c == '(' then ParseNoTagLists(s) else None
    case Angle(_) => ParseTaggedLists(s, true, "", 0)
    case _ => None
  }

  /** Spaces, tabs, and what ends a line or a page. */
  predicate Spaces(s: string) {
    forall i :: 0 <= i < |s| ==> s[i] as int in {9, 10, 11, 12, 13, 32}
  }

  lemma {:induction false} TrimsLeft(before: string, s: string)
    requires Spaces(before) && (s == "" || !Spaces(s[..1]))
    ensures TrimLeft(before + s) == s
  {
    if before == "" {
      assert before + s == s;
      assert s != "" ==> (Spaces(s[..1]) <==> Space(s[0]));
    } else {
      assert (before + s)[1..] == before[1..] + s;
      assert before[0] as int in {9, 10, 11, 12, 13, 32};
      TrimsLeft(before[1..], s);
    }
  }

  lemma {:induction false} TrimsRight(s: string, after: string)
    requires Spaces(after) && (s == "" || !Spaces(s[|s| - 1..]))
    ensures TrimRight(s + after) == s
    decreases |after|
  {
    if after == "" {
      assert s + after == s;
      assert s != "" ==> (Spaces(s[|s| - 1..]) <==> Space(s[|s| - 1]));
    } else {
      var n := |after| - 1;
      assert (s + after)[..|s| + n] == s + after[..n];
      assert after[n] as int in {9, 10, 11, 12, 13, 32};
      TrimsRight(s, after[..n]);
    }
  }

  /** What stands around a header is not read, and nothing of the header is lost. */
  lemma ParseTrims(before: string, s: string, after: string)
    requires Spaces(before) && Spaces(after) && s != "" && !Spaces(s[..1]) && !Spaces(s[|s| - 1..])
    ensures Parse(before + s + after) == Parse(s)
  {
    hide Spaces, TrimLeft, TrimRight, Lex;
    TrimsLeft(before, s + after) by { assert (s + after)[..1] == s[..1]; }
    TrimsRight(s, after);
    assert before + s + after == before + (s + after);
    NoSpaces();
    TrimsLeft("", s);
    TrimsRight(s, "");
    assert "" + s == s && s + "" == s;
  }

  lemma NoSpaces()
    ensures Spaces("")
  {
  }

  // ----- As the source runs them

  method LexLoop(input: string) returns (l: Lexed)
    ensures l == Lex(input)
  {
    var s := input;
    while |s| > 0 && (s[0] == '\t' || s[0] == ' ')
      invariant SkipBlank(s) == SkipBlank(input)
      decreases |s|
    {
      s := s[1..];
    }
    if |s| == 0 { return Lexed(Eof, ""); }
    var i := 0;
    while i < |s|
      invariant i <= |s| && WordLen(s) == i + WordLen(s[i..])
    {
      if Delimits(s[i]) { break; }
      assert s[i..][1..] == s[i + 1..];
      i := i + 1;
    }
    assert WordLen(s) == i;
    if i != 0 {
      return Lexed(if s[..i] == "Not" then Not else Str(s[..i]), s[i..]);
    }
    if s[0] == '<' { return Enclosed(s, '>'); }
    if s[0] == '[' { return Enclosed(s, ']'); }
    return Lexed(Single(s[0]), s[1..]);
  }

  method ParseListLoop(input: string) returns (p: Parsed<IfList>)
    ensures p == ParseList(input)
  {
    hide Lex, ParseCondition;
    var open := LexLoop(input);
    if open.tok != Single('(') { return Fail; }
    var s := open.rest;
    var conditions: seq<Condition> := [];
    PrependNone(ParseConditions(s));
    while true
      invariant ParseConditions(open.rest) == Prepended(conditions, ParseConditions(s))
      decreases |s|
    {
      var l := LexLoop(s);
      if l.tok == Single(')') {
        if |conditions| == 0 { return Fail; }
        assert conditions + [] == conditions;
        return Got(IfList("", conditions), l.rest);
      }
      var c := ParseCondition(s);
      if c.Fail? { return Fail; }
      PrependMore(conditions, c.value, ParseConditions(c.rest));
      conditions := conditions + [c.value];
      s := c.rest;
    }
  }

  function Prepended(front: seq<Condition>, p: Parsed<seq<Condition>>): Parsed<seq<Condition>> {
    if p.Fail? then Fail else Got(front + p.value, p.rest)
  }

  lemma PrependNone(p: Parsed<seq<Condition>>)
    ensures Prepended([], p) == p
  {
    if p.Got? { assert [] + p.value == p.value; }
  }

  lemma JoinNone(p: Option<seq<IfList>>)
    ensures Joined([], p) == p
  {
    if p.Some? { assert [] + p.value == p.value; }
  }

  lemma PrependMore(front: seq<Condition>, c: Condition, p: Parsed<seq<Condition>>)
    ensures p.Got? ==> front + ([c] + p.value) == (front + [c]) + p.value
  {
  }

  function Joined(front: seq<IfList>, p: Option<seq<IfList>>): Option<seq<IfList>> {
    if p.None? then None else Some(front + p.value)
  }

  lemma JoinMore(front: seq<IfList>, l: IfList, p: Option<seq<IfList>>)
    ensures p.Some? ==> front + ([l] + p.value) == (front + [l]) + p.value
  {
  }

  method ParseNoTagListsLoop(input: string) returns (lists: Option<seq<IfList>>)
    ensures lists == ParseNoTagLists(input)
  {
    var s := input;
    var found: seq<IfList> := [];
    JoinNone(ParseNoTagLists(s));
    while true
      invariant ParseNoTagLists(input) == Joined(found, ParseNoTagLists(s))
      decreases |s|
    {
      var l := ParseListLoop(s);
      if l.Fail? { return None; }
      JoinMore(found, l.value, ParseNoTagLists(l.rest));
      found := found + [l.value];
      if l.rest == "" { return Some(found); }
      s := l.rest;
    }
  }

  method ParseTaggedListsLoop(input: string) returns (lists: Option<seq<IfList>>)
    ensures lists == ParseTaggedLists(input, true, "", 0)
  {
    hide Lex, ParseList;
    var s, tag, n, first := input, "", 0, true;
    var found: seq<IfList> := [];
    JoinNone(ParseTaggedLists(s, first, tag, n));
    while true
      invariant n >= 0
      invariant ParseTaggedLists(input, true, "", 0) == Joined(found, ParseTaggedLists(s, first, tag, n))
      decreases |s|
    {
      var l := LexLoop(s);
      if l.tok.Angle? {
        if !first && n == 0 { return None; }
        tag, n := l.tok.text, 0;
        s := l.rest;
      } else if l.tok == Single('(') {
        n := n + 1;
        var list := ParseListLoop(s);
        if list.Fail? { return None; }
        JoinMore(found, list.value.(resourceTag := tag), ParseTaggedLists(list.rest, false, tag, n));
        found := found + [list.value.(resourceTag := tag)];
        if list.rest == "" { return Some(found); }
        s := list.rest;
      } else {
        return None;
      }
      first := false;
    }
  }

  method ParseIfHeader(header: string) returns (lists: Option<seq<IfList>>)
    ensures lists == Parse(header)
  {
    var s := TrimRight(TrimLeft(header));
    var l := LexLoop(s);
    if l.tok == Single('(') {
      lists := ParseNoTagListsLoop(s);
    } else if l.tok.Angle? {
      lists := ParseTaggedListsLoop(s);
    } else {
      return None;
    }
  }

  // ----- Headers as they are written

  /** What a client writes: lists about the resource asked for, or groups of lists
      under a tag each. */
  datatype Header = Untagged(lists: seq<seq<Condition>>) | Tagged(groups: seq<Group>)
  datatype Group = Group(tag: string, lists: seq<seq<Condition>>)

  function Lists(tag: string, lists: seq<seq<Condition>>): (r: seq<IfList>)
    ensures |r| == |lists|
  {
    if lists == [] then [] else [IfList(tag, lists[0])] + Lists(tag, lists[1..])
  }

  function AllLists(groups: seq<Group>): seq<IfList> {
    if groups == [] then [] else Lists(groups[0].tag, groups[0].lists) + AllLists(groups[1..])
  }

  function Meaning(h: Header): seq<IfList> {
    match h
    case Untagged(lists) => Lists("", lists)
    case Tagged(groups) => AllLists(groups)
  }

  /** A condition is a state token, which is a URI and has no '>' in it, or an
      entity-tag, which is never empty: it has its quotes. */
  predicate GoodCondition(c: Condition) {
    (c.token != "" && '>' !in c.token && c.etag == "") || (c.token == "" && c.etag != "")
  }

  ghost predicate GoodLists(lists: seq<seq<Condition>>) {
    lists != [] && forall i :: 0 <= i < |lists| ==> GoodList(lists[i])
  }

  ghost predicate GoodList(conditions: seq<Condition>) {
    conditions != [] && forall i :: 0 <= i < |conditions| ==> GoodCondition(conditions[i])
  }

  ghost predicate WellFormed(h: Header) {
    match h
    case Untagged(lists) => GoodLists(lists)
    case Tagged(groups) =>
      groups != [] && forall i :: 0 <= i < |groups| ==> '>' !in groups[i].tag && GoodLists(groups[i].lists)
  }

  function Spelled(t: Tok): string {
    match t
    case Eof => ""
    case Bad => ""
    case Str(text) => text
    case Not => "Not"
    case Angle(text) => "<" + text + ">"
    case Square(text) => "[" + text + "]"
    case Single(c) => [c]
  }

  predicate Blanks(s: string) {
    forall i :: 0 <= i < |s| ==> Blank(s[i])
  }

  /** `s` is a token, any number of blanks before it, and then `rest`. */
  ghost predicate Begins(s: string, t: Tok, rest: string) {
    exists blanks :: Blanks(blanks) && s == blanks + (Spelled(t) + rest)
  }

  function Value(c: Condition): Tok {
    if c.token != "" then Angle(c.token) else Square(c.etag)
  }

  /** `s` is a condition and then `rest`. */
  ghost predicate WritesCondition(s: string, c: Condition, rest: string) {
    if c.not then exists mid :: Begins(s, Not, mid) && Begins(mid, Value(c), rest) else Begins(s, Value(c), rest)
  }

  /** `s` is conditions, the end of their list, and then `rest`. */
  ghost predicate WritesConditions(s: string, conditions: seq<Condition>, rest: string)
    decreases |conditions|
  {
    if conditions == [] then Begins(s, Single(')'), rest)
    else exists mid :: WritesCondition(s, conditions[0], mid) && WritesConditions(mid, conditions[1..], rest)
  }

  ghost predicate WritesList(s: string, conditions: seq<Condition>, rest: string) {
    exists mid :: Begins(s, Single('('), mid) && WritesConditions(mid, conditions, rest)
  }

  ghost predicate WritesLists(s: string, lists: seq<seq<Condition>>, rest: string)
    decreases |lists|
  {
    if lists == [] then s == rest
    else exists mid :: WritesList(s, lists[0], mid) && WritesLists(mid, lists[1..], rest)
  }

  ghost predicate WritesGroups(s: string, groups: seq<Group>)
    decreases |groups|
  {
    if groups == [] then s == ""
    else exists mid, rest ::
      Begins(s, Angle(groups[0].tag), mid) && WritesLists(mid, groups[0].lists, rest) && WritesGroups(rest, groups[1..])
  }

  /** `s` is the header written out, with any spacing between its tokens. */
  ghost predicate Writes(s: string, h: Header) {
    match h
    case Untagged(lists) => WritesLists(s, lists, "")
    case Tagged(groups) => WritesGroups(s, groups)
  }

  // ----- Reading back

  lemma {:induction false} SkipBlanks(blanks: string, s: string)
    requires Blanks(blanks) && (s == "" || !Blank(s[0]))
    ensures SkipBlank(blanks + s) == s
  {
    if blanks == "" {
      assert blanks + s == s;
    } else {
      assert (blanks + s)[1..] == blanks[1..] + s;
      SkipBlanks(blanks[1..], s);
    }
  }

  lemma EnclosedReads(body: string, text: string, close: char, rest: string)
    requires |body| == |text| + 2 + |rest| && body[0] != close && body[1..|text| + 1] == text
    requires body[|text| + 1] == close && body[|text| + 2..] == rest && (close == '>' || close == ']')
    ensures close !in text ==> Enclosed(body, close) == Lexed(if close == '>' then Angle(text) else Square(text), rest)
    ensures close == ']' && close in text ==>
            Enclosed(body, close).tok.Square?
            && Enclosed(body, close).tok.text != text
  {
    var n := |text|;
    forall i | 0 < i <= n ensures body[i] == text[i - 1] { assert body[1..n + 1][i - 1] == body[i]; }
    if close !in text {
      FirstIndexIs(body, close, n + 1);
    } else {
      var j := FirstIndex(text, close);
      FirstIndexIs(body, close, j + 1);
      assert |body[1..j + 1]| == j < n;
    }
  }

  lemma SpelledParts(t: Tok, rest: string)
    requires t.Angle? || t.Square?
    ensures var body := Spelled(t) + rest;
            && |body| == |t.text| + 2 + |rest| && body[0] == (if t.Angle? then '<' else '[')
            && body[1..|t.text| + 1] == t.text
            && body[|t.text| + 1] == (if t.Angle? then '>' else ']') && body[|t.text| + 2..] == rest
  {
  }

  lemma LexEnclosed(s: string, t: Tok, rest: string)
    requires Begins(s, t, rest) && (t.Angle? || t.Square?)
    requires t.Angle? ==> '>' !in t.text
    ensures t.Angle? || ']' !in t.text ==> Lex(s) == Lexed(t, rest)
    ensures t.Square? && ']' in t.text ==> Lex(s).tok.Square? && Lex(s).tok != t
  {
    var blanks :| Blanks(blanks) && s == blanks + (Spelled(t) + rest);
    SpelledParts(t, rest);
    hide Spelled, Enclosed;
    var body := Spelled(t) + rest;
    SkipBlanks(blanks, body);
    EnclosedReads(body, t.text, if t.Angle? then '>' else ']', rest);
    assert WordLen(body) == 0;
  }

  lemma LexSingle(s: string, c: char, rest: string)
    requires Begins(s, Single(c), rest) && (c == '(' || c == ')')
    ensures Lex(s) == Lexed(Single(c), rest)
  {
    var blanks :| Blanks(blanks) && s == blanks + (Spelled(Single(c)) + rest);
    var body := Spelled(Single(c)) + rest;
    SkipBlanks(blanks, body);
    assert body[0] == c && body[1..] == rest;
  }

  lemma LexNot(s: string, mid: string)
    requires Begins(s, Not, mid) && mid != "" && Delimits(mid[0])
    ensures Lex(s) == Lexed(Not, mid)
  {
    var blanks :| Blanks(blanks) && s == blanks + (Spelled(Not) + mid);
    var body := "Not" + mid;
    NotParts(mid);
    SkipBlanks(blanks, body);
    WordIs(body, 3);
    hide WordLen, Enclosed;
  }

  lemma NotParts(mid: string)
    requires mid != "" && Delimits(mid[0])
    ensures var body := "Not" + mid;
            && |body| > 3 && !Blank(body[0]) && body[..3] == "Not" && body[3..] == mid && Delimits(body[3])
            && forall i :: 0 <= i < 3 ==> !Delimits(body[i])
  {
  }

  lemma {:induction false} WordIs(s: string, n: nat)
    requires n < |s| && Delimits(s[n]) && forall i :: 0 <= i < n ==> !Delimits(s[i])
    ensures WordLen(s) == n
  {
    if n == 0 {
    } else {
      forall i | 0 <= i < n - 1 ensures !Delimits(s[1..][i]) { assert s[1..][i] == s[i + 1]; }
      assert s[1..][n - 1] == s[n];
      WordIs(s[1..], n - 1);
    }
  }

  lemma BeginsDelimited(s: string, t: Tok, rest: string)
    requires Begins(s, t, rest) && (t.Angle? || t.Square? || t == Single('(') || t == Single(')'))
    ensures s != "" && Delimits(s[0])
  {
    var blanks :| Blanks(blanks) && s == blanks + (Spelled(t) + rest);
    if blanks != "" { assert Blank(blanks[0]); }
  }

  predicate Plain(c: Condition) { ']' !in c.etag }

  /** A condition is read back when its entity-tag has no ']' in it, and otherwise is
      not. */
  lemma ReadsCondition(s: string, c: Condition, rest: string)
    requires WritesCondition(s, c, rest) && GoodCondition(c)
    ensures Plain(c) ==> ParseCondition(s) == Got(c, rest)
    ensures !Plain(c) ==> ParseCondition(s).Got? && ParseCondition(s).value != c
    ensures Lex(s).tok != Single(')')
  {
    hide Lex, Begins;
    if c.not {
      var mid :| Begins(s, Not, mid) && Begins(mid, Value(c), rest);
      BeginsDelimited(mid, Value(c), rest);
      LexNot(s, mid);
      LexEnclosed(mid, Value(c), rest);
    } else {
      LexEnclosed(s, Value(c), rest);
    }
  }

  ghost predicate AllPlain(conditions: seq<Condition>) {
    forall i :: 0 <= i < |conditions| ==> Plain(conditions[i])
  }

  lemma {:induction false} ReadsConditions(s: string, conditions: seq<Condition>, rest: string)
    requires WritesConditions(s, conditions, rest) && forall i :: 0 <= i < |conditions| ==> GoodCondition(conditions[i])
    ensures AllPlain(conditions) ==> ParseConditions(s) == Got(conditions, rest)
    ensures !AllPlain(conditions) ==> ParseConditions(s).Fail? || ParseConditions(s).value != conditions
    decreases |conditions|
  {
    hide Lex, Begins, WritesCondition, ParseCondition;
    if conditions == [] {
      LexSingle(s, ')', rest);
    } else {
      var mid :| WritesCondition(s, conditions[0], mid) && WritesConditions(mid, conditions[1..], rest);
      ReadsCondition(s, conditions[0], mid);
      assert conditions == [conditions[0]] + conditions[1..];
      if Plain(conditions[0]) {
        ReadsConditions(mid, conditions[1..], rest);
        assert AllPlain(conditions) <==> AllPlain(conditions[1..]);
      } else {
        assert !AllPlain(conditions);
      }
    }
  }

  lemma ReadsList(s: string, conditions: seq<Condition>, rest: string)
    requires WritesList(s, conditions, rest) && GoodList(conditions)
    ensures Lex(s).tok == Single('(')
    ensures AllPlain(conditions) ==> ParseList(s) == Got(IfList("", conditions), rest)
    ensures !AllPlain(conditions) ==> ParseList(s).Fail? || ParseList(s).value != IfList("", conditions)
  {
    hide Lex, Begins, WritesConditions, ParseConditions, AllPlain;
    var mid :| Begins(s, Single('('), mid) && WritesConditions(mid, conditions, rest);
    LexSingle(s, '(', mid);
    ReadsConditions(mid, conditions, rest);
  }

  ghost predicate AllListsPlain(lists: seq<seq<Condition>>) {
    forall i :: 0 <= i < |lists| ==> AllPlain(lists[i])
  }

  lemma {:induction false} ReadsUntagged(s: string, lists: seq<seq<Condition>>)
    requires GoodLists(lists) && WritesLists(s, lists, "")
    ensures AllListsPlain(lists) ==> ParseNoTagLists(s) == Some(Lists("", lists))
    ensures !AllListsPlain(lists) ==> ParseNoTagLists(s) != Some(Lists("", lists))
    decreases |lists|
  {
    hide Lex, WritesList, ParseList, GoodList, AllPlain;
    var mid :| WritesList(s, lists[0], mid) && WritesLists(mid, lists[1..], "");
    ReadsList(s, lists[0], mid);
    FirstPlain(lists);
    if |lists| > 1 {
      MoreFollows(mid, lists[1..], "");
      ReadsUntagged(mid, lists[1..]);
      NextDiffers(IfList("", lists[0]), ParseNoTagLists(mid), Lists("", lists[1..]));
    } else {
      assert lists[1..] == [] && mid == "";
      assert Lists("", lists) == [IfList("", lists[0])];
    }
    if ParseList(s).Got? && ParseNoTagLists(s).Some? {
      assert ParseNoTagLists(s).value[0] == ParseList(s).value;
      assert Lists("", lists)[0] == IfList("", lists[0]);
    }
  }

  lemma FirstPlain(lists: seq<seq<Condition>>)
    requires lists != []
    ensures AllListsPlain(lists) <==> AllPlain(lists[0]) && AllListsPlain(lists[1..])
  {
    hide AllPlain;
    assert lists == [lists[0]] + lists[1..];
  }

  lemma NextDiffers(l: IfList, p: Option<seq<IfList>>, expected: seq<IfList>)
    ensures p.Some? ==> ([l] + p.value == [l] + expected <==> p.value == expected)
  {
    if p.Some? {
      assert ([l] + p.value)[1..] == p.value && ([l] + expected)[1..] == expected;
    }
  }

  lemma MoreFollows(s: string, lists: seq<seq<Condition>>, rest: string)
    requires lists != [] && WritesLists(s, lists, rest)
    ensures s != ""
  {
    var mid :| WritesList(s, lists[0], mid) && WritesLists(mid, lists[1..], rest);
    var inner :| Begins(s, Single('('), inner) && WritesConditions(inner, lists[0], mid);
    BeginsDelimited(s, Single('('), inner);
  }

  ghost predicate AllGroupsPlain(groups: seq<Group>) {
    forall i :: 0 <= i < |groups| ==> AllListsPlain(groups[i].lists)
  }

  ghost predicate GoodGroups(groups: seq<Group>) {
    forall i :: 0 <= i < |groups| ==> '>' !in groups[i].tag && GoodLists(groups[i].lists)
  }

  /** What is left of a group, and the groups after it. */
  lemma {:induction false} ReadsRest(s: string, mid: string, tag: string, n: nat, lists: seq<seq<Condition>>,
                                     groups: seq<Group>)
    requires WritesLists(s, lists, mid) && WritesGroups(mid, groups)
    requires lists == [] ==> n > 0 && groups != []
    requires (lists != [] ==> GoodLists(lists)) && GoodGroups(groups)
    ensures var whole := Lists(tag, lists) + AllLists(groups);
            if AllListsPlain(lists) && AllGroupsPlain(groups) then ParseTaggedLists(s, false, tag, n) == Some(whole)
            else ParseTaggedLists(s, false, tag, n) != Some(whole)
    decreases |groups|, |lists|
  {
    hide Lex, ParseList, GoodList, AllPlain, WritesList;
    if lists == [] {
      NextGroup(s, groups);
      var next, rest :| Begins(s, Angle(groups[0].tag), next) && WritesLists(next, groups[0].lists, rest)
          && WritesGroups(rest, groups[1..]);
      LexEnclosed(s, Angle(groups[0].tag), next);
      ReadsRest(next, rest, groups[0].tag, 0, groups[0].lists, groups[1..]);
      FirstGroupPlain(groups);
      assert Lists(tag, []) + AllLists(groups) == AllLists(groups);
    } else {
      var after :| WritesList(s, lists[0], after) && WritesLists(after, lists[1..], mid);
      ReadsList(s, lists[0], after);
      FirstPlain(lists);
      ListThenMore(s, after, mid, tag, n, lists, groups);
      if |lists| > 1 || groups != [] {
        if |lists| > 1 { assert GoodLists(lists[1..]); }
        ReadsRest(after, mid, tag, n + 1, lists[1..], groups);
      }
    }
  }

  lemma NextGroup(s: string, groups: seq<Group>)
    requires groups != [] && WritesGroups(s, groups)
    ensures exists next, rest ::
      Begins(s, Angle(groups[0].tag), next) && WritesLists(next, groups[0].lists, rest)
          && WritesGroups(rest, groups[1..])
    ensures s != ""
  {
    var next, rest :| Begins(s, Angle(groups[0].tag), next) && WritesLists(next, groups[0].lists, rest)
        && WritesGroups(rest, groups[1..]);
    BeginsDelimited(s, Angle(groups[0].tag), next);
  }

  lemma FirstGroupPlain(groups: seq<Group>)
    requires groups != []
    ensures AllGroupsPlain(groups) <==> AllListsPlain(groups[0].lists) && AllGroupsPlain(groups[1..])
    ensures GoodGroups(groups) ==> GoodGroups(groups[1..])
  {
    hide AllListsPlain, GoodLists;
    assert groups == [groups[0]] + groups[1..];
  }

  /** One list read, and how what it stands for compares. */
  lemma ListThenMore(s: string, after: string, mid: string, tag: string, n: nat, lists: seq<seq<Condition>>,
                     groups: seq<Group>)
    requires lists != [] && WritesLists(after, lists[1..], mid) && WritesGroups(mid, groups)
    requires Lex(s).tok == Single('(')
    requires if AllPlain(lists[0]) then ParseList(s) == Got(IfList("", lists[0]), after)
             else ParseList(s).Fail? || ParseList(s).value != IfList("", lists[0])
    requires ParseList(s).Got? ==> ParseList(s).value.resourceTag == ""
    ensures var whole := Lists(tag, lists) + AllLists(groups);
            var more := Lists(tag, lists[1..]) + AllLists(groups);
            && (!AllPlain(lists[0]) ==> ParseTaggedLists(s, false, tag, n) != Some(whole))
            && (AllPlain(lists[0]) && |lists| == 1 && groups == [] ==>
                ParseTaggedLists(s, false, tag, n) == Some(whole))
            && (AllPlain(lists[0]) && (|lists| > 1 || groups != []) ==>
                  (ParseTaggedLists(s, false, tag, n) == Some(whole) <==>
                   ParseTaggedLists(after, false, tag, n + 1) == Some(more)))
  {
    hide Lex, ParseList, AllPlain, WritesList, Begins;
    var whole := Lists(tag, lists) + AllLists(groups);
    var more := Lists(tag, lists[1..]) + AllLists(groups);
    assert whole == [IfList(tag, lists[0])] + more;
    if |lists| > 1 {
      MoreFollows(after, lists[1..], mid);
    } else if groups != [] {
      assert lists[1..] == [] && after == mid;
      NextGroup(mid, groups);
    } else {
      assert lists[1..] == [] && after == "" && more == [];
      assert whole == [IfList(tag, lists[0])];
    }
    var parsed := ParseTaggedLists(s, false, tag, n);
    if AllPlain(lists[0]) {
      NextDiffers(IfList(tag, lists[0]), ParseTaggedLists(after, false, tag, n + 1), more);
    } else if parsed.Some? {
      assert parsed.value[0] == ParseList(s).value.(resourceTag := tag);
      assert whole[0] == IfList(tag, lists[0]);
    }
  }

  /** No entity-tag of the header has a ']' in it. */
  ghost predicate NoBracket(h: Header) {
    match h
    case Untagged(lists) => AllListsPlain(lists)
    case Tagged(groups) => AllGroupsPlain(groups)
  }

  /** Section 10.4.2 of RFC 4918: a header written out with any spacing is read back
      as what it means -- exactly when none of its entity-tags holds a ']', which
      ends an entity-tag here wherever it stands, within its quotes or not. */
  lemma ReadsBack(header: string, h: Header)
    requires WellFormed(h) && Writes(TrimRight(TrimLeft(header)), h)
    ensures Parse(header) == Some(Meaning(h)) <==> NoBracket(h)
  {
    hide Lex, WritesList, ParseList, TrimLeft, TrimRight;
    var s := TrimRight(TrimLeft(header));
    match h
    case Untagged(lists) =>
      var mid :| WritesList(s, lists[0], mid) && WritesLists(mid, lists[1..], "");
      ReadsList(s, lists[0], mid);
      ReadsUntagged(s, lists);
    case Tagged(groups) =>
      NextGroup(s, groups);
      var next, rest :| Begins(s, Angle(groups[0].tag), next) && WritesLists(next, groups[0].lists, rest)
          && WritesGroups(rest, groups[1..]);
      LexEnclosed(s, Angle(groups[0].tag), next);
      FirstGroupPlain(groups);
      ReadsRest(next, rest, groups[0].tag, 0, groups[0].lists, groups[1..]);
  }

  // ----- The shortest header there is

  /** A token with nothing before it. */
  lemma Plainly(t: Tok, rest: string)
    ensures Begins(Spelled(t) + rest, t, rest)
  {
    assert Blanks("") && Spelled(t) + rest == "" + (Spelled(t) + rest);
  }

  /** One list of one condition. */
  lemma OneConditionReads(body: string, c: Condition)
    requires WritesCondition(body, c, ")") && GoodCondition(c) && ']' !in c.etag
    requires body != "" && body[|body| - 1] == ')'
    ensures Parse("(" + body) == Some([IfList("", [c])])
  {
    hide Lex, WritesCondition, ParseList, ParseNoTagLists, ParseTaggedLists, GoodCondition;
    var s := "(" + body;
    OneConditionWrites(body, c);
    assert TrimLeft(s) == s && s[|s| - 1] == ')' && TrimRight(s) == s;
    var h := Untagged([[c]]);
    assert WellFormed(h) && NoBracket(h);
    ReadsBack(s, h);
    assert [[c]][1..] == [] && Meaning(h) == [IfList("", [c])];
  }

  lemma OneConditionWrites(body: string, c: Condition)
    requires WritesCondition(body, c, ")")
    ensures WritesLists("(" + body, [[c]], "")
  {
    hide WritesCondition;
    Plainly(Single('('), body);
    Plainly(Single(')'), "");
    assert ")" + "" == ")" && [c][1..] == [];
    assert WritesConditions(")", [], "");
    assert WritesConditions(body, [c], "");
    assert WritesList("(" + body, [c], "") && WritesLists("", [[c]][1..], "");
  }

  /** One list that claims one token. */
  lemma OneTokenReads(token: string)
    requires token != "" && '>' !in token
    ensures Parse("(<" + token + ">)") == Some([IfList("", [Condition(false, token, "")])])
  {
    hide Parse, Begins;
    var c, body := Condition(false, token, ""), ("<" + token + ">") + ")";
    Plainly(Angle(token), ")");
    assert Spelled(Angle(token)) == "<" + token + ">" && Value(c) == Angle(token);
    hide Spelled;
    assert WritesCondition(body, c, ")") && body[|body| - 1] == ')';
    OneConditionReads(body, c);
    assert "(" + body == "(<" + token + ">)";
  }

  /** One that denies one condition. */
  lemma OneNotReads(c: Condition)
    requires c.not && GoodCondition(c) && ']' !in c.etag
    ensures Parse("(Not " + (Spelled(Value(c)) + ")")) == Some([IfList("", [c])])
  {
    hide GoodCondition, Parse;
    var value := Value(c);
    hide Value;
    DeniesWrites(value);
    hide Spelled, Begins;
    var tail := Spelled(value) + ")";
    var body := "Not" + (" " + tail);
    assert WritesCondition(body, c, ")");
    assert tail[|tail| - 1] == ')';
    OneConditionReads(body, c);
    assert "(" + body == "(Not " + tail;
  }

  lemma DeniesWrites(value: Tok)
    ensures var tail := Spelled(value) + ")";
            Begins("Not" + (" " + tail), Not, " " + tail) && Begins(" " + tail, value, ")")
  {
    var tail := Spelled(value) + ")";
    Plainly(Not, " " + tail);
    assert Spelled(Not) == "Not";
    hide Spelled;
    assert Blanks(" ") && " " + tail == " " + (Spelled(value) + ")");
  }
}
