/** The hand tokenizer that reads the arguments of every `lookup` call in a Helm template
    (hack/validate-origin-version-pin.py:505-550). */
module LookupTokens {

  predicate Blank(c: char) {
    c == ' ' || c == '\t'
  }

  predicate LineEnd(c: char) {
    c == '\r' || c == '\n'
  }

  /** What ends a bare word. */
  predicate Separator(c: char) {
    Blank(c) || LineEnd(c) || c == ')' || c == '}'
  }

  predicate WordChar(c: char) {
    'a' <= c <= 'z' || 'A' <= c <= 'Z' || '0' <= c <= '9' || c == '_'
  }

  // ---- What the scanning loops compute, on the text that is left ----

  function Drop(s: string, n: nat): string {
    if n <= |s| then s[n..] else ""
  }

  function Take(s: string, n: nat): string {
    if n <= |s| then s[..n] else s
  }

  function SkipBlanks(s: string): (r: string)
    ensures |r| <= |s|
  {
    if s != "" && Blank(s[0]) then SkipBlanks(s[1..]) else s
  }

  /** From behind an opening quote to the closing one; a backslash takes the next character with it. */
  function QuotedSpan(s: string): nat
    decreases |s|
  {
    if s == "" || s[0] == '"' then 0
    else if s[0] == '\\' then 2 + QuotedSpan(Drop(s, 2))
    else 1 + QuotedSpan(s[1..])
  }

  /** Up to the parenthesis that closes the depth open ones. */
  function GroupSpan(s: string, depth: int): nat
    decreases |s|
  {
    if s == "" then 0
    else if s[0] == ')' && depth == 1 then 0
    else 1 + GroupSpan(s[1..], if s[0] == '(' then depth + 1 else if s[0] == ')' then depth - 1 else depth)
  }

  function BareSpan(s: string): nat {
    if s == "" || Separator(s[0]) then 0 else 1 + BareSpan(s[1..])
  }

  /** How far the token at the front of s reaches; beyond the end where a quote is not closed. */
  function TokenSpan(s: string): nat
    requires s != ""
  {
    if s[0] == '"' then QuotedSpan(s[1..]) + 2
    else if s[0] == '(' then GroupSpan(s, 0) + 1
    else BareSpan(s)
  }

  /** The next n argument tokens, fewer where the line or the text ends first. */
  function Args(s: string, n: nat): (r: seq<string>)
    ensures |r| <= n
    decreases n
  {
    if n == 0 then []
    else
      var t := SkipBlanks(s);
      if t == "" || LineEnd(t[0]) then []
      else [Take(t, TokenSpan(t))] + Args(Drop(t, TokenSpan(t)), n - 1)
  }

  const LOOKUP := "lookup"

  /** The pattern \blookup\b at position i. */
  predicate LookupAt(text: string, i: nat) {
    && i + 6 <= |text| && text[i..i + 6] == LOOKUP
    && (i > 0 ==> !WordChar(text[i - 1])) && (i + 6 < |text| ==> !WordChar(text[i + 6]))
  }

  /** The argument tokens of every call from position i on. */
  function Calls(text: string, i: nat): (r: seq<seq<string>>)
    requires i <= |text|
    ensures forall c :: c in r ==> |c| <= 4
    decreases |text| - i
  {
    if i == |text| then []
    else if LookupAt(text, i) then [Args(text[i + 6..], 4)] + Calls(text, i + 6)
    else Calls(text, i + 1)
  }

  // ---- The scanning loops ----

  lemma DropMore(text: string, i: nat, n: nat)
    ensures Drop(Drop(text, i), n) == Drop(text, i + n)
  {
  }

  lemma DropFirst(text: string, i: nat)
    requires i < |text|
    ensures Drop(text, i) != "" && Drop(text, i)[0] == text[i] && Drop(text, i)[1..] == Drop(text, i + 1)
  {
  }

  /** text[i:j] as Python slices it. */
  lemma SliceIsTake(text: string, i: nat, n: nat)
    requires i <= |text|
    ensures Take(Drop(text, i), n) == text[i..if i + n <= |text| then i + n else |text|]
  {
  }

  method QuotedEnd(text: string, i: nat) returns (j: nat)
    requires i < |text| && text[i] == '"'
    ensures j == i + 1 + QuotedSpan(Drop(text, i + 1))
  {
    j := i + 1;
    while j < |text| && text[j] != '"'
      invariant j + QuotedSpan(Drop(text, j)) == i + 1 + QuotedSpan(Drop(text, i + 1))
      decreases |text| - j
    {
      DropFirst(text, j);
      DropMore(text, j, 2);
      j := j + (if text[j] == '\\' then 2 else 1);
    }
    if j < |text| { DropFirst(text, j); }
  }

  method GroupEnd(text: string, i: nat) returns (j: nat)
    requires i < |text|
    ensures j == i + GroupSpan(Drop(text, i), 0)
  {
    var depth := 0;
    j := i;
    var closed := false;
    while j < |text| && !closed
      invariant !closed ==> j + GroupSpan(Drop(text, j), depth) == i + GroupSpan(Drop(text, i), 0)
      invariant closed ==> j == i + GroupSpan(Drop(text, i), 0)
      decreases |text| - j, !closed
    {
      DropFirst(text, j);
      if text[j] == '(' {
        depth := depth + 1;
      } else if text[j] == ')' {
        depth := depth - 1;
        closed := depth == 0;
      }
      if !closed {
        j := j + 1;
      }
    }
  }

  method BareEnd(text: string, i: nat) returns (j: nat)
    requires i < |text|
    ensures j == i + BareSpan(Drop(text, i)) && j <= |text|
  {
    j := i;
    while j < |text| && !Separator(text[j])
      invariant i <= j <= |text|
      invariant j + BareSpan(Drop(text, j)) == i + BareSpan(Drop(text, i))
    {
      DropFirst(text, j);
      j := j + 1;
    }
    if j < |text| { DropFirst(text, j); }
  }

  /** One token: which scan is used depends on its first character. */
  method ReadToken(text: string, i: nat) returns (tok: string, next: nat)
    requires i < |text|
    ensures tok == Take(Drop(text, i), TokenSpan(Drop(text, i))) && next == i + TokenSpan(Drop(text, i))
  {
    DropFirst(text, i);
    if text[i] == '"' {
      next := QuotedEnd(text, i);
      next := next + 1;
    } else if text[i] == '(' {
      next := GroupEnd(text, i);
      next := next + 1;
    } else {
      next := BareEnd(text, i);
    }
    SliceIsTake(text, i, next - i);
    tok := text[i..if next <= |text| then next else |text|];
  }

  method SkipFrom(text: string, start: nat) returns (i: nat)
    ensures Drop(text, i) == SkipBlanks(Drop(text, start))
    ensures i < |text| ==> !Blank(text[i])
  {
    i := start;
    while i < |text| && Blank(text[i])
      invariant SkipBlanks(Drop(text, i)) == SkipBlanks(Drop(text, start))
    {
      DropFirst(text, i);
      i := i + 1;
    }
    if i < |text| { DropFirst(text, i); }
  }

  /** The body of lookup_args for one call whose name ends at start. */
  method ReadArgs(text: string, start: nat) returns (args: seq<string>)
    requires start <= |text|
    ensures args == Args(text[start..], 4)
  {
    args := [];
    var i: nat := start;
    var stop := false;
    assert Drop(text, i) == text[start..];
    assert [] + Args(Drop(text, i), 4) == Args(text[start..], 4);
    hide Args, SkipBlanks, TokenSpan, Drop;
    while |args| < 4 && !stop
      invariant |args| <= 4
      invariant args + (if stop then [] else Args(Drop(text, i), 4 - |args|)) == Args(text[start..], 4)
      decreases 4 - |args|, !stop
    {
      ghost var before, left := i, 4 - |args|;
      i := SkipFrom(text, i);
      if i >= |text| || LineEnd(text[i]) {
        ArgsStop(text, before, i, left);
        stop := true;
      } else {
        ArgsUnfold(text, before, i, left);
        var tok;
        tok, i := ReadToken(text, i);
        Regroup(args, tok, Args(Drop(text, i), left - 1));
        args := args + [tok];
      }
    }
    NoMoreArgs(text, i);
    assert args + [] == args;
  }

  lemma NoMoreArgs(text: string, i: nat)
    ensures Args(Drop(text, i), 0) == []
  {
  }

  lemma Regroup(a: seq<string>, b: string, c: seq<string>)
    ensures a + ([b] + c) == (a + [b]) + c
  {
  }

  lemma ArgsStop(text: string, before: nat, i: nat, n: nat)
    requires Drop(text, i) == SkipBlanks(Drop(text, before)) && (i < |text| ==> LineEnd(text[i]))
    ensures Args(Drop(text, before), n) == []
  {
    if i < |text| { DropFirst(text, i); }
  }

  lemma ArgsUnfold(text: string, before: nat, i: nat, n: nat)
    requires n > 0 && i < |text| && !LineEnd(text[i]) && Drop(text, i) == SkipBlanks(Drop(text, before))
    ensures Drop(text, i) != ""
    ensures var k := TokenSpan(Drop(text, i));
      Args(Drop(text, before), n) == [Take(Drop(text, i), k)] + Args(Drop(text, i + k), n - 1)
  {
    DropMore(text, i, TokenSpan(Drop(text, i)));
  }

  /** at lists the positions of the calls from a position on, in order. */
  ghost predicate Positions(text: string, from: nat, at: seq<nat>) {
    && (forall k, l :: 0 <= k < l < |at| ==> at[k] < at[l])
    && (forall i: nat :: i in at <==> from <= i && LookupAt(text, i))
  }

  ghost predicate ReadAt(text: string, calls: seq<seq<string>>, at: seq<nat>) {
    && |at| == |calls|
    && forall k :: 0 <= k < |at| ==> at[k] + 6 <= |text| && calls[k] == Args(text[at[k] + 6..], 4)
  }

  lemma PositionsNext(text: string, from: nat, rest: seq<nat>)
    requires LookupAt(text, from) && Positions(text, from + 6, rest)
    ensures Positions(text, from, [from] + rest)
  {
    var at := [from] + rest;
    hide LookupAt;
    forall i: nat | from < i && LookupAt(text, i) ensures i in rest {
      CallsApart(text, from, i);
    }
    forall k | 0 <= k < |rest| ensures from < rest[k] {
      assert rest[k] in rest;
    }
  }

  lemma ReadNext(text: string, from: nat, calls: seq<seq<string>>, rest: seq<nat>)
    requires from + 6 <= |text| && ReadAt(text, calls, rest)
    ensures ReadAt(text, [Args(text[from + 6..], 4)] + calls, [from] + rest)
  {
    hide Args;
  }

  lemma {:induction false} PositionsFrom(text: string, from: nat) returns (at: seq<nat>)
    requires from <= |text|
    ensures Positions(text, from, at) && ReadAt(text, Calls(text, from), at)
    decreases |text| - from
  {
    hide Args, Positions, ReadAt;
    if from == |text| {
      at := [];
      NoPositions(text);
    } else if LookupAt(text, from) {
      at := PositionsFrom(text, from + 6);
      PositionsNext(text, from, at);
      ReadNext(text, from, Calls(text, from + 6), at);
      at := [from] + at;
    } else {
      at := PositionsFrom(text, from + 1);
      PositionsSkip(text, from, at);
    }
  }

  lemma NoPositions(text: string)
    ensures Positions(text, |text|, []) && ReadAt(text, [], [])
  {
  }

  lemma PositionsSkip(text: string, from: nat, at: seq<nat>)
    requires !LookupAt(text, from) && Positions(text, from + 1, at)
    ensures Positions(text, from, at)
  {
    hide LookupAt;
  }

  /** The calls, one list for each position at which the word lookup stands by itself, in order, and
      each is what is read behind its position. */
  lemma CallPositions(text: string) returns (at: seq<nat>)
    ensures |at| == |Calls(text, 0)| && forall k, l :: 0 <= k < l < |at| ==> at[k] < at[l]
    ensures forall i: nat :: i in at <==>
      (i + 6 <= |text| && text[i..i + 6] == "lookup"
       && (i > 0 ==> var c := text[i - 1];
           !('a' <= c <= 'z' || 'A' <= c <= 'Z' || '0' <= c <= '9' || c == '_'))
       && (i + 6 < |text| ==> var c := text[i + 6];
           !('a' <= c <= 'z' || 'A' <= c <= 'Z' || '0' <= c <= '9' || c == '_')))
    ensures forall k :: 0 <= k < |at| ==> at[k] + 6 <= |text| && Calls(text, 0)[k] == Args(text[at[k] + 6..], 4)
  {
    hide Calls, Args;
    at := PositionsFrom(text, 0);
    assert forall i: nat :: i in at <==> LookupAt(text, i);
  }

  /** lookup_args: one list of at most four tokens for every call, in order. */
  method LookupArgs(text: string) returns (calls: seq<seq<string>>)
    ensures calls == Calls(text, 0)
  {
    calls := [];
    var i := 0;
    while i < |text|
      invariant 0 <= i <= |text|
      invariant calls + Calls(text, i) == Calls(text, 0)
      decreases |text| - i
    {
      if LookupAt(text, i) {
        var args := ReadArgs(text, i + 6);
        calls := calls + [args];
        i := i + 6;
      } else {
        i := i + 1;
      }
    }
  }

  function Unquote(tok: string): string {
    if |tok| >= 2 && tok[0] == '"' then tok[1..|tok| - 1] else tok
  }

  // ---- Printing tokens ----

  datatype Item = Plain(c: char) | Escaped(c: char)

  /** A piece of a parenthesised group: a character or a group inside. */
  datatype Piece = Letter(c: char) | Nested(inner: seq<Piece>)

  datatype Token = Quoted(items: seq<Item>) | Group(pieces: seq<Piece>) | Bare(word: string)

  ghost predicate ItemsOk(items: seq<Item>) {
    forall i :: 0 <= i < |items| && items[i].Plain? ==> items[i].c != '"' && items[i].c != '\\'
  }

  ghost predicate PiecesOk(ps: seq<Piece>) {
    forall i :: 0 <= i < |ps| ==>
      match ps[i]
      case Letter(c) => c != '(' && c != ')'
      case Nested(inner) => PiecesOk(inner)
  }

  ghost predicate TokenOk(t: Token) {
    match t
    case Quoted(items) => ItemsOk(items)
    case Group(ps) => PiecesOk(ps)
    case Bare(w) =>
      w != "" && w[0] != '"' && w[0] != '('
      && forall c :: c in w ==> c != ' ' && c != '\t' && c != '\r' && c != '\n' && c != ')' && c != '}'
  }

  function ShowItems(items: seq<Item>): string {
    if items == [] then ""
    else (if items[0].Plain? then [items[0].c] else ['\\', items[0].c]) + ShowItems(items[1..])
  }

  function ShowPieces(ps: seq<Piece>): string {
    if ps == [] then ""
    else (match ps[0] case Letter(c) => [c] case Nested(inner) => "(" + ShowPieces(inner) + ")") + ShowPieces(ps[1..])
  }

  function Show(t: Token): string {
    match t
    case Quoted(items) => "\"" + ShowItems(items) + "\""
    case Group(ps) => "(" + ShowPieces(ps) + ")"
    case Bare(w) => w
  }

  ghost predicate AllBlank(gap: string) {
    forall i :: 0 <= i < |gap| ==> gap[i] == ' ' || gap[i] == '\t'
  }

  ghost predicate GapOk(gap: string) {
    gap != "" && AllBlank(gap)
  }

  /** Tokens, each behind a gap of blanks. */
  function Print(tokens: seq<Token>, gaps: seq<string>): string
    requires |gaps| == |tokens|
  {
    if tokens == [] then "" else gaps[0] + Show(tokens[0]) + Print(tokens[1..], gaps[1..])
  }

  ghost predicate Printable(tokens: seq<Token>, gaps: seq<string>) {
    && |gaps| == |tokens|
    && (forall i :: 0 <= i < |tokens| ==> TokenOk(tokens[i]))
    && (forall i :: 0 <= i < |gaps| ==> GapOk(gaps[i]))
  }

  function Shown(tokens: seq<Token>): seq<string> {
    if tokens == [] then [] else [Show(tokens[0])] + Shown(tokens[1..])
  }

  // ---- Reading back what was printed ----

  lemma {:induction false} QuotedReads(items: seq<Item>, rest: string)
    requires ItemsOk(items)
    ensures QuotedSpan(ShowItems(items) + "\"" + rest) == |ShowItems(items)|
  {
    var s := ShowItems(items) + "\"" + rest;
    if items == [] {
    } else {
      QuotedReads(items[1..], rest);
      var more := ShowItems(items[1..]) + "\"" + rest;
      if items[0].Plain? {
        assert s[0] == items[0].c && s[1..] == more;
      } else {
        assert s[0] == '\\' && Drop(s, 2) == more;
      }
    }
  }

  lemma GroupStep(c: char, s: string, depth: int)
    requires !(c == ')' && depth == 1)
    ensures GroupSpan([c] + s, depth)
         == 1 + GroupSpan(s, if c == '(' then depth + 1 else if c == ')' then depth - 1 else depth)
  {
    assert ([c] + s)[1..] == s;
  }

  lemma {:induction false} GroupReads(ps: seq<Piece>, rest: string, depth: int)
    requires PiecesOk(ps) && depth >= 1
    ensures GroupSpan(ShowPieces(ps) + rest, depth) == |ShowPieces(ps)| + GroupSpan(rest, depth)
    decreases ps, 0
  {
    hide GroupSpan;
    if ps == [] {
      assert ShowPieces(ps) + rest == rest;
    } else {
      var tail := ShowPieces(ps[1..]) + rest;
      GroupReads(ps[1..], rest, depth);
      match ps[0]
      case Letter(c) =>
        assert ShowPieces(ps) + rest == [c] + tail;
        GroupStep(c, tail, depth);
      case Nested(inner) =>
        NestedReads(inner, tail, depth);
        assert ShowPieces(ps) + rest == ['('] + (ShowPieces(inner) + ([')'] + tail));
    }
  }

  lemma {:induction false} NestedReads(inner: seq<Piece>, tail: string, depth: int)
    requires PiecesOk(inner) && depth >= 1
    ensures GroupSpan(['('] + (ShowPieces(inner) + ([')'] + tail)), depth)
         == |ShowPieces(inner)| + 2 + GroupSpan(tail, depth)
    decreases inner, 1
  {
    hide GroupSpan;
    GroupStep('(', ShowPieces(inner) + ([')'] + tail), depth);
    GroupReads(inner, [')'] + tail, depth + 1);
    GroupStep(')', tail, depth + 1);
  }

  lemma {:induction false} BareReads(w: string, rest: string)
    requires forall i :: 0 <= i < |w| ==> !Separator(w[i])
    requires rest == "" || Separator(rest[0])
    ensures BareSpan(w + rest) == |w|
  {
    if w == "" {
      assert w + rest == rest;
    } else {
      assert (w + rest)[1..] == w[1..] + rest;
      BareReads(w[1..], rest);
    }
  }

  /** A token ends where it was printed to end, when a bare word is followed by a separator. */
  lemma TokenReads(t: Token, rest: string)
    requires TokenOk(t) && (t.Bare? ==> rest == "" || Separator(rest[0]))
    ensures Show(t) != "" && TokenSpan(Show(t) + rest) == |Show(t)|
    ensures !Blank(Show(t)[0]) && !LineEnd(Show(t)[0])
  {
    match t
    case Quoted(items) => QuotedTokenReads(items, rest);
    case Group(ps) => GroupTokenReads(ps, rest);
    case Bare(w) =>
      forall i | 0 <= i < |w| ensures !Separator(w[i]) {
        assert w[i] in w;
      }
      BareReads(w, rest);
  }

  lemma QuotedTokenReads(items: seq<Item>, rest: string)
    requires ItemsOk(items)
    ensures var s := "\"" + ShowItems(items) + "\"";
      TokenSpan(s + rest) == |s| && s[0] == '"'
  {
    var s := "\"" + ShowItems(items) + "\"" + rest;
    assert s[1..] == ShowItems(items) + "\"" + rest;
    QuotedReads(items, rest);
  }

  lemma GroupTokenReads(ps: seq<Piece>, rest: string)
    requires PiecesOk(ps)
    ensures var s := "(" + ShowPieces(ps) + ")";
      TokenSpan(s + rest) == |s| && s[0] == '('
  {
    var s := "(" + ShowPieces(ps) + ")" + rest;
    assert s[1..] == ShowPieces(ps) + (")" + rest);
    GroupReads(ps, ")" + rest, 1);
    assert (")" + rest)[0] == ')';
  }

  lemma {:induction false} SkipsGap(gap: string, s: string)
    requires AllBlank(gap)
    ensures SkipBlanks(gap + s) == SkipBlanks(s)
  {
    if gap == "" {
      assert gap + s == s;
    } else {
      assert (gap + s)[1..] == gap[1..] + s;
      SkipsGap(gap[1..], s);
    }
  }

  lemma ArgsStep(gap: string, t: Token, after: string, n: nat)
    requires n > 0 && GapOk(gap) && TokenOk(t) && (t.Bare? ==> after == "" || Separator(after[0]))
    ensures Args(gap + Show(t) + after, n) == [Show(t)] + Args(after, n - 1)
  {
    var s := Show(t) + after;
    hide Show, TokenOk, TokenSpan;
    assert gap + Show(t) + after == gap + s;
    SkipsGap(gap, s);
    TokenReads(t, after);
    assert SkipBlanks(s) == s;
    assert Take(s, |Show(t)|) == Show(t) && Drop(s, |Show(t)|) == after;
  }

  /** What may follow the last printed token. */
  ghost predicate TailOk(tokens: seq<Token>, tail: string) {
    tokens != [] && tokens[|tokens| - 1].Bare? ==>
      tail == "" || (var c := tail[0]; c == ' ' || c == '\t' || c == '\r' || c == '\n' || c == ')' || c == '}')
  }

  lemma NothingPrinted(gaps: seq<string>, tail: string, args: seq<string>)
    requires gaps == []
    ensures Print([], gaps) + tail == tail && Shown([]) + args == args
  {
  }

  /** Printed tokens are read back one for one, and reading goes on behind them. */
  lemma {:induction false} ArgsReadBack(tokens: seq<Token>, gaps: seq<string>, tail: string, n: nat)
    requires Printable(tokens, gaps) && TailOk(tokens, tail) && |tokens| <= n
    ensures Args(Print(tokens, gaps) + tail, n) == Shown(tokens) + Args(tail, n - |tokens|)
  {
    if tokens == [] {
      NothingPrinted(gaps, tail, Args(tail, n));
    } else {
      hide Args, Print, Shown, Separator;
      AfterFirst(tokens, gaps, tail);
      ArgsReadBack(tokens[1..], gaps[1..], tail, n - 1);
      ReadBackOne(tokens, gaps, tail, n, Args(tail, n - |tokens|));
    }
  }

  /** The step of reading back: the first token, and then what is read behind it. */
  lemma ReadBackOne(tokens: seq<Token>, gaps: seq<string>, tail: string, n: nat, more: seq<string>)
    requires tokens != [] && |gaps| == |tokens| && n > 0 && GapOk(gaps[0]) && TokenOk(tokens[0])
    requires tokens[0].Bare? ==>
      var after := Print(tokens[1..], gaps[1..]) + tail; after == "" || Separator(after[0])
    requires Args(Print(tokens[1..], gaps[1..]) + tail, n - 1) == Shown(tokens[1..]) + more
    ensures Args(Print(tokens, gaps) + tail, n) == Shown(tokens) + more
  {
    PrintUnfold(tokens, gaps, tail);
    ShownUnfold(tokens, more);
    hide Args, Show, TokenOk, GapOk, Print, Shown, Separator;
    ArgsStep(gaps[0], tokens[0], Print(tokens[1..], gaps[1..]) + tail, n);
  }

  lemma PrintUnfold(tokens: seq<Token>, gaps: seq<string>, tail: string)
    requires tokens != [] && |gaps| == |tokens|
    ensures Print(tokens, gaps) + tail == gaps[0] + Show(tokens[0]) + (Print(tokens[1..], gaps[1..]) + tail)
  {
    Regrouped(gaps[0] + Show(tokens[0]), Print(tokens[1..], gaps[1..]), tail);
  }

  lemma Regrouped(a: string, b: string, c: string)
    ensures a + b + c == a + (b + c)
  {
  }

  lemma ShownUnfold(tokens: seq<Token>, more: seq<string>)
    requires tokens != []
    ensures Shown(tokens) + more == [Show(tokens[0])] + (Shown(tokens[1..]) + more)
  {
  }

  /** Behind the first token comes the next gap, or the tail. */
  lemma AfterFirst(tokens: seq<Token>, gaps: seq<string>, tail: string)
    requires tokens != [] && Printable(tokens, gaps) && TailOk(tokens, tail)
    ensures Printable(tokens[1..], gaps[1..]) && TailOk(tokens[1..], tail) && GapOk(gaps[0]) && TokenOk(tokens[0])
    ensures var after := Print(tokens[1..], gaps[1..]) + tail;
      tokens[0].Bare? ==> after == "" || Separator(after[0])
  {
    var after := Print(tokens[1..], gaps[1..]) + tail;
    if |tokens| > 1 {
      assert GapOk(gaps[1]) && gaps[1..][0] == gaps[1] && after[0] == gaps[1][0];
    } else {
      assert after == tail;
    }
  }

  /** Any four well-formed tokens printed behind `lookup` come back as that call's tokens,
      wherever the call stands in a text. */
  lemma FourTokensReadBack(before: string, tokens: seq<Token>, gaps: seq<string>, tail: string)
    requires |tokens| == 4 && Printable(tokens, gaps) && TailOk(tokens, tail)
    requires before == "" || !WordChar(before[|before| - 1])
    ensures var text := before + LOOKUP + Print(tokens, gaps) + tail;
      && LookupAt(text, |before|) && Args(text[|before| + 6..], 4) == Shown(tokens)
      && Shown(tokens) in Calls(text, 0)
  {
    var text := before + LOOKUP + Print(tokens, gaps) + tail;
    CallStands(before, Print(tokens, gaps) + tail, text);
    assert Blank(Print(tokens, gaps)[0]) by { assert GapOk(gaps[0]); }
    ArgsReadBack(tokens, gaps, tail, 4);
    CallIsRead(text, 0, |before|);
  }

  lemma CallStands(before: string, after: string, text: string)
    requires text == before + LOOKUP + after && (before == "" || !WordChar(before[|before| - 1]))
    ensures text[|before| + 6..] == after && text[|before|..|before| + 6] == LOOKUP
    ensures after == "" || !WordChar(after[0]) ==> LookupAt(text, |before|)
  {
    assert |LOOKUP| == 6;
    if |before| > 0 { assert text[|before| - 1] == before[|before| - 1]; }
    if after != "" { assert text[|before| + 6] == after[0]; }
  }

  lemma CallsApart(text: string, i: nat, k: nat)
    requires i < k && LookupAt(text, i) && LookupAt(text, k)
    ensures i + 6 <= k
  {
    forall j | i < j < i + 6 ensures text[j] != 'l' {
      assert text[j] == text[i..i + 6][j - i] == LOOKUP[j - i];
    }
    assert text[k] == text[k..k + 6][0] == LOOKUP[0];
  }

  /** Every call is among those read: two calls do not overlap. */
  lemma {:induction false} CallIsRead(text: string, i: nat, k: nat)
    requires i <= k && LookupAt(text, k)
    ensures Args(text[k + 6..], 4) in Calls(text, i)
    decreases k - i
  {
    if i == k {
    } else {
      if LookupAt(text, i) {
        CallsApart(text, i, k);
        CallIsRead(text, i + 6, k);
      } else {
        CallIsRead(text, i + 1, k);
      }
    }
  }

  // ---- Tokens that are not closed, and quotes taken off ----

  lemma {:induction false} QuoteUnclosed(s: string)
    requires '"' !in s
    ensures QuotedSpan(s) >= |s|
    decreases |s|
  {
    if s == "" {
    } else if s[0] == '\\' {
      QuoteUnclosed(Drop(s, 2));
    } else {
      QuoteUnclosed(s[1..]);
    }
  }

  lemma {:induction false} GroupUnclosed(s: string, depth: int)
    requires ')' !in s
    ensures GroupSpan(s, depth) == |s|
    decreases |s|
  {
    if s == "" {
    } else {
      GroupUnclosed(s[1..], if s[0] == '(' then depth + 1 else depth);
    }
  }

  /** A quote or a parenthesis that nothing closes takes the rest of the text for one token. */
  lemma UnclosedTakesRest(s: string, n: nat)
    requires n > 0 && s != ""
    requires (s[0] == '"' && '"' !in s[1..]) || (s[0] == '(' && ')' !in s)
    ensures Args(s, n) == [s]
  {
    if s[0] == '"' {
      QuoteUnclosed(s[1..]);
    } else {
      GroupUnclosed(s, 0);
    }
    assert SkipBlanks(s) == s && Take(s, TokenSpan(s)) == s;
    assert Drop(s, TokenSpan(s)) == "";
  }

  /** Taking the quotes off a printed token leaves what stands between them, and any other token
      as it is. */
  lemma UnquoteShown(t: Token)
    requires TokenOk(t)
    ensures Unquote(Show(t)) == if t.Quoted? then ShowItems(t.items) else Show(t)
  {
  }

  // ---- Calls with fewer arguments ----

  function Empties(n: nat): seq<string> {
    if n == 0 then [] else [""] + Empties(n - 1)
  }

  lemma {:induction false} ClosedReadsEmpty(gap: string, tail: string, n: nat)
    requires AllBlank(gap) && tail != "" && (tail[0] == ')' || tail[0] == '}')
    ensures Args(gap + tail, n) == Empties(n)
    decreases n
  {
    if n == 0 {
    } else {
      SkipsGap(gap, tail);
      assert TokenSpan(tail) == 0 && Drop(tail, 0) == tail;
      assert "" + tail == tail;
      ClosedReadsEmpty("", tail, n - 1);
    }
  }

  lemma EndReadsNothing(gap: string, tail: string, n: nat)
    requires AllBlank(gap) && (tail == "" || LineEnd(tail[0]))
    ensures Args(gap + tail, n) == []
  {
    SkipsGap(gap, tail);
  }

  lemma SomethingIsRead(gap: string, tail: string, n: nat)
    requires AllBlank(gap) && n > 0
    requires tail != "" && !Blank(tail[0]) && !LineEnd(tail[0])
    ensures |Args(gap + tail, n)| > 0
  {
    SkipsGap(gap, tail);
  }

  /** A call of fewer than four arguments is read as what it is exactly where, blanks aside, the
      line or the text ends behind it: whatever else stands there, a pipe or a closing brace with
      its trim mark among it, is read as further arguments. */
  lemma ShortCalls(tokens: seq<Token>, gaps: seq<string>, gap: string, tail: string)
    requires |tokens| < 4 && Printable(tokens, gaps) && TailOk(tokens, gap + tail)
    requires AllBlank(gap) && (tail == "" || (tail[0] != ' ' && tail[0] != '\t'))
    ensures Args(Print(tokens, gaps) + (gap + tail), 4) == Shown(tokens) <==>
      tail == "" || tail[0] == '\r' || tail[0] == '\n'
    ensures |Args(Print(tokens, gaps) + (gap + tail), 4)| == |tokens| <==>
      tail == "" || tail[0] == '\r' || tail[0] == '\n'
  {
    ShownLength(tokens);
    ArgsReadBack(tokens, gaps, gap + tail, 4);
    if tail == "" || LineEnd(tail[0]) {
      EndReadsNothing(gap, tail, 4 - |tokens|);
    } else {
      SomethingIsRead(gap, tail, 4 - |tokens|);
    }
  }

  /** Closed by a parenthesis or a brace it is filled up with empty tokens: it passes for a call of
      four whose name argument is empty. */
  lemma ClosedShortCalls(tokens: seq<Token>, gaps: seq<string>, gap: string, tail: string)
    requires |tokens| < 4 && Printable(tokens, gaps) && AllBlank(gap)
    requires tail != "" && (tail[0] == ')' || tail[0] == '}')
    ensures var args := Args(Print(tokens, gaps) + (gap + tail), 4);
      args == Shown(tokens) + Empties(4 - |tokens|) && |args| == 4 && Unquote(args[3]) == ""
  {
    ShownLength(tokens);
    ClosedArgs(tokens, gaps, gap, tail);
    hide *;
    PaddedToFour(Shown(tokens), 4 - |tokens|);
  }

  lemma ClosedArgs(tokens: seq<Token>, gaps: seq<string>, gap: string, tail: string)
    requires |tokens| < 4 && Printable(tokens, gaps) && AllBlank(gap)
    requires tail != "" && (tail[0] == ')' || tail[0] == '}')
    ensures Args(Print(tokens, gaps) + (gap + tail), 4) == Shown(tokens) + Empties(4 - |tokens|)
  {
    SeparatorFollows(tokens, gap, tail);
    var rest := gap + tail;
    hide Args, Print, Shown, TailOk, Empties, AllBlank, TokenOk, GapOk;
    ArgsReadBack(tokens, gaps, rest, 4);
    ClosedReadsEmpty(gap, tail, 4 - |tokens|);
  }

  lemma SeparatorFollows(tokens: seq<Token>, gap: string, tail: string)
    requires AllBlank(gap) && tail != "" && (tail[0] == ')' || tail[0] == '}')
    ensures TailOk(tokens, gap + tail)
  {
    assert (gap + tail)[0] == if gap == "" then tail[0] else gap[0];
  }

  lemma PaddedToFour(args: seq<string>, n: nat)
    requires |args| + n == 4 && n > 0
    ensures |args + Empties(n)| == 4 && Unquote((args + Empties(n))[3]) == ""
  {
    EmptiesLength(n);
  }

  /** Wherever such a call stands in a text. */
  lemma ClosedShortCallIsPadded(before: string, tokens: seq<Token>, gaps: seq<string>, gap: string, tail: string)
    requires |tokens| < 4 && Printable(tokens, gaps) && AllBlank(gap)
    requires tail != "" && (tail[0] == ')' || tail[0] == '}')
    requires tokens != [] && (before == "" || !WordChar(before[|before| - 1]))
    ensures var text := before + LOOKUP + (Print(tokens, gaps) + (gap + tail));
      Shown(tokens) + Empties(4 - |tokens|) in Calls(text, 0)
  {
    var after := Print(tokens, gaps) + (gap + tail);
    var text := before + LOOKUP + after;
    assert Blank(after[0]) by { assert GapOk(gaps[0]); }
    hide Args, Print, Shown, Printable, Empties, Calls, Unquote;
    CallStands(before, after, text);
    ClosedShortCalls(tokens, gaps, gap, tail);
    CallIsRead(text, 0, |before|);
  }

  const THREE := [Bare("$v"), Bare("$k"), Bare("$ns")]

  lemma ThreePrinted()
    ensures Print(THREE, [" ", " ", " "]) == " $v $k $ns" && Shown(THREE) == ["$v", "$k", "$ns"]
    ensures Printable(THREE, [" ", " ", " "])
  {
    var one, two := [Bare("$ns")], [Bare("$k"), Bare("$ns")];
    assert one[1..] == [] && two[1..] == one && THREE[1..] == two;
    assert [" "][1..] == [] && [" ", " "][1..] == [" "] && [" ", " ", " "][1..] == [" ", " "];
    assert Print(one, [" "]) == " $ns" && Shown(one) == ["$ns"];
    assert Print(two, [" ", " "]) == " $k $ns" && Shown(two) == ["$k", "$ns"];
  }

  /** {{ lookup $v $k $ns }} names three arguments and is read as a full-list fetch. */
  lemma ThreeReadAsFour()
    ensures ["$v", "$k", "$ns", ""] in Calls("{{ " + LOOKUP + (" $v $k $ns" + (" " + "}}")), 0)
  {
    ThreePrinted();
    assert Empties(1) == [""];
    assert Shown(THREE) + Empties(1) == ["$v", "$k", "$ns", ""];
    hide Args, Print, Shown, Printable, Calls, Empties;
    ClosedShortCallIsPadded("{{ ", THREE, [" ", " ", " "], " ", "}}");
  }

  lemma {:induction false} ShownLength(tokens: seq<Token>)
    ensures |Shown(tokens)| == |tokens|
  {
    if tokens == [] {
    } else {
      ShownLength(tokens[1..]);
    }
  }

  lemma {:induction false} EmptiesLength(n: nat)
    ensures |Empties(n)| == n && forall i :: 0 <= i < n ==> Empties(n)[i] == ""
  {
    if n == 0 {
    } else {
      EmptiesLength(n - 1);
    }
  }
}
