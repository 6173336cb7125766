/** Lists in the script engine, engine/command.cpp: `validateblock`, `parseword`, `parselist` and `explodelist`. */
module QuotedLists {
  import opened Quoting

  function Closing(open: char): char {
    if open == '[' then ']' else ')'
  }

  // ---------- Blocks that may be written in brackets ----------

  predicate Validates(s: string, i: nat, stack: string)
    requires i <= |s|
    decreases |s| - i
  {
    match At(s, i)
    case '\0' => stack == ""
    case '[' => |stack| < MAXBRAK && Validates(s, i + 1, stack + "[")
    case '(' => |stack| < MAXBRAK && Validates(s, i + 1, stack + "(")
    case ']' => stack != "" && stack[|stack| - 1] == '[' && Validates(s, i + 1, stack[..|stack| - 1])
    case ')' => stack != "" && stack[|stack| - 1] == '(' && Validates(s, i + 1, stack[..|stack| - 1])
    case '"' => At(s, StringEnd(s, i + 1)) == '"' && Validates(s, StringEnd(s, i + 1) + 1, stack)
    case '/' => At(s, i + 1) != '/' && Validates(s, i + 1, stack)
    case c => c != FORMFEED && Validates(s, i + 1, stack)
  }

  method ValidateBlock(s: string) returns (ok: bool)
    requires CString(s)
    ensures ok == Validates(s, 0, "")
  {
    var brakstack := new char[MAXBRAK];
    var depth: nat := 0;
    var i: nat := 0;
    while i < |s|
      invariant i <= |s| && depth <= MAXBRAK
      invariant Validates(s, 0, "") == Validates(s, i, brakstack[..depth])
      decreases |s| - i
    {
      assert s[i] in s;
      ghost var was := brakstack[..depth];
      match s[i] {
        case '[' =>
          if depth >= MAXBRAK { return false; }
          brakstack[depth] := s[i];
          depth := depth + 1;
          assert brakstack[..depth] == was + "[";
        case '(' =>
          if depth >= MAXBRAK { return false; }
          brakstack[depth] := s[i];
          depth := depth + 1;
          assert brakstack[..depth] == was + "(";
        case ']' =>
          if depth == 0 || brakstack[depth - 1] != '[' { return false; }
          depth := depth - 1;
          assert brakstack[..depth] == was[..|was| - 1];
        case ')' =>
          if depth == 0 || brakstack[depth - 1] != '(' { return false; }
          depth := depth - 1;
          assert brakstack[..depth] == was[..|was| - 1];
        case '"' =>
          i := ParseString(s, i + 1);
          if At(s, i) != '"' { return false; }
        case '/' =>
          if At(s, i + 1) == '/' { return false; }
        case _ =>
          if s[i] == FORMFEED { return false; }
      }
      i := i + 1;
    }
    assert brakstack[..depth] == "" <==> depth == 0;
    return depth == 0;
  }

  // ---------- The parser ----------

  /** `skiplist`. */
  function Skip(s: string, p: nat): (q: nat)
    requires p <= |s|
    ensures p <= q <= |s|
    decreases |s| - p
  {
    var q := Past(s, p, " \t\r\n");
    if At(s, q) == '/' && At(s, q + 1) == '/' then Skip(s, Upto(s, q, "\n")) else q
  }

  /** Where the block with `brak` brackets of its own kind still open ends, and whether it is closed there. */
  function BlockEnd(s: string, p: nat, open: char, brak: nat): (r: (nat, bool))
    requires p <= |s| && brak > 0
    ensures p <= r.0 <= |s| && (r.1 ==> r.0 < |s|)
    decreases |s| - p
  {
    match At(s, p)
    case '\0' => (p, false)
    case '"' =>
      var e := StringEnd(s, p + 1);
      BlockEnd(s, if At(s, e) == '"' then e + 1 else e, open, brak)
    case '/' => BlockEnd(s, if At(s, p + 1) == '/' then Upto(s, p + 1, "\n") else p + 1, open, brak)
    case c =>
      if c == open then BlockEnd(s, p + 1, open, brak + 1)
      else if c != Closing(open) then BlockEnd(s, p + 1, open, brak)
      else if brak == 1 then (p, true)
      else BlockEnd(s, p + 1, open, brak - 1)
  }

  /** `parseword`. */
  function WordEnd(s: string, p: nat, stack: string): (q: nat)
    requires p <= |s|
    ensures p <= q <= |s|
    decreases |s| - p
  {
    match At(s, p)
    case '[' => if |stack| >= MAXBRAK then p else WordEnd(s, p + 1, stack + "[")
    case '(' => if |stack| >= MAXBRAK then p else WordEnd(s, p + 1, stack + "(")
    case ']' => if stack == "" || stack[|stack| - 1] != '[' then p else WordEnd(s, p + 1, stack[..|stack| - 1])
    case ')' => if stack == "" || stack[|stack| - 1] != '(' then p else WordEnd(s, p + 1, stack[..|stack| - 1])
    case '/' => if At(s, p + 1) == '/' then p else WordEnd(s, p + 1, stack)
    case c => if c == '\0' || c in "\";@ \t\r\n" then p else WordEnd(s, p + 1, stack)
  }

  datatype Item = Nothing(next: nat) | Item(start: nat, end: nat, quoteStart: nat, quoteEnd: nat, next: nat)

  /** What follows an item: blanks, comments and at most one semicolon. */
  function After(s: string, p: nat): (q: nat)
    requires p <= |s|
    ensures p <= q <= |s|
  {
    var q := Skip(s, p);
    if At(s, q) == ';' then q + 1 else q
  }

  /** `parselist`. */
  function Next(s: string, p: nat): (r: Item)
    requires p <= |s|
    ensures p <= r.next <= |s|
    ensures r.Item? ==> p <= r.quoteStart <= r.start <= r.end <= r.quoteEnd <= r.next
  {
    var q := Skip(s, p);
    var c := At(s, q);
    if c == '"' then
      var e := StringEnd(s, q + 1);
      var n := if At(s, e) == '"' then e + 1 else e;
      Item(q + 1, e, q, n, After(s, n))
    else if c == '(' || c == '[' then
      var (e, closed) := BlockEnd(s, q + 1, c, 1);
      if closed then Item(q + 1, e, q, e + 1, After(s, e + 1)) else Item(q + 1, e, q, e, e)
    else if c == '\0' || c == ')' || c == ']' then Nothing(q)
    else
      var e := WordEnd(s, q, "");
      Item(q, e, q, e, After(s, e))
  }

  /** The parser moves on with every item, except at an `@`. */
  lemma {:induction false} NextAdvances(s: string, p: nat)
    requires p <= |s| && Next(s, p).Item?
    ensures Next(s, p).next == p <==> At(s, p) == '@'
  {
    hide BlockEnd, StringEnd, Upto;
  }

  method SkipList(s: string, start: nat) returns (p: nat)
    requires start <= |s|
    ensures p == Skip(s, start)
  {
    p := start;
    while true
      invariant start <= p <= |s| && Skip(s, p) == Skip(s, start)
      decreases |s| - p
    {
      p := Past(s, p, " \t\r\n");
      if At(s, p) != '/' || At(s, p + 1) != '/' { break; }
      p := Upto(s, p, "\n");
    }
  }

  const WORDSTOPS := "\"/;@()[] \t\r\n"
  const BLOCKSTOPS := "\"/;()[]"

  /** Jumping to the next character that matters. */
  lemma {:induction false} WordJumps(s: string, p: nat, stack: string)
    requires p <= |s|
    ensures WordEnd(s, p, stack) == WordEnd(s, Upto(s, p, WORDSTOPS), stack)
    decreases |s| - p
  {
    if At(s, p) != '\0' && At(s, p) !in WORDSTOPS {
      WordJumps(s, p + 1, stack);
    }
  }

  lemma {:induction false} BlockJumps(s: string, p: nat, open: char, brak: nat)
    requires p <= |s| && brak > 0 && (open == '(' || open == '[')
    ensures BlockEnd(s, p, open, brak) == BlockEnd(s, Upto(s, p, BLOCKSTOPS), open, brak)
    decreases |s| - p
  {
    if At(s, p) != '\0' && At(s, p) !in BLOCKSTOPS {
      BlockJumps(s, p + 1, open, brak);
    }
  }

  lemma {:induction false} BlockHalts(s: string, p: nat, open: char, brak: nat)
    requires p <= |s| && At(s, p) == '\0' && brak > 0
    ensures BlockEnd(s, p, open, brak) == (p, false)
  {
  }

  lemma {:induction false} BlockUnrolls(s: string, p: nat, open: char, brak: nat)
    requires p < |s| && At(s, p) != '\0' && brak > 0 && (open == '(' || open == '[')
    ensures BlockEnd(s, p, open, brak) ==
      var c := At(s, p);
      if c == '"' then
        BlockEnd(s, if At(s, StringEnd(s, p + 1)) == '"' then StringEnd(s, p + 1) + 1 else StringEnd(s, p + 1), open, brak)
      else if c == '/' then BlockEnd(s, if At(s, p + 1) == '/' then Upto(s, p + 1, "\n") else p + 1, open, brak)
      else if c == open then BlockEnd(s, p + 1, open, brak + 1)
      else if c == Closing(open) && brak == 1 then (p, true)
      else BlockEnd(s, p + 1, open, if c == Closing(open) then brak - 1 else brak)
  {
    hide StringEnd, Upto;
  }

  lemma {:induction false} ClosingIs(open: char)
    ensures Closing(open) == if open == '[' then ']' else ')'
  {
  }

  method ParseWord(s: string, start: nat) returns (p: nat)
    requires start <= |s|
    ensures p == WordEnd(s, start, "")
  {
    var brakstack := new char[MAXBRAK];
    var depth: nat := 0;
    p := start;
    while true
      invariant start <= p <= |s| && depth <= MAXBRAK
      invariant WordEnd(s, p, brakstack[..depth]) == WordEnd(s, start, "")
      decreases |s| - p
    {
      ghost var was := brakstack[..depth];
      WordJumps(s, p, was);
      p := Upto(s, p, WORDSTOPS);
      match At(s, p) {
        case '/' =>
          if At(s, p + 1) == '/' { return; }
        case '[' =>
          if depth >= MAXBRAK { return; }
          brakstack[depth] := '[';
          depth := depth + 1;
          assert brakstack[..depth] == was + "[";
        case '(' =>
          if depth >= MAXBRAK { return; }
          brakstack[depth] := '(';
          depth := depth + 1;
          assert brakstack[..depth] == was + "(";
        case ']' =>
          if depth == 0 || brakstack[depth - 1] != '[' { return; }
          depth := depth - 1;
          assert brakstack[..depth] == was[..|was| - 1];
        case ')' =>
          if depth == 0 || brakstack[depth - 1] != '(' { return; }
          depth := depth - 1;
          assert brakstack[..depth] == was[..|was| - 1];
        case _ => return;
      }
      p := p + 1;
    }
  }

  /** The loop of `parselist` over a bracketed block. */
  method ParseBlock(s: string, start: nat, braktype: char) returns (p: nat, closed: bool)
    requires start <= |s| && (braktype == '(' || braktype == '[')
    ensures (p, closed) == BlockEnd(s, start, braktype, 1)
  {
    hide StringEnd, Upto, BlockEnd, Closing;
    ClosingIs(braktype);
    p := start;
    var brak: nat := 1;
    while true
      invariant start <= p <= |s| && brak > 0
      invariant BlockEnd(s, p, braktype, brak) == BlockEnd(s, start, braktype, 1)
      decreases |s| - p
    {
      BlockJumps(s, p, braktype, brak);
      p := Upto(s, p, BLOCKSTOPS);
      var c := At(s, p);
      if c == '\0' {
        BlockHalts(s, p, braktype, brak);
        return p, false;
      }
      BlockUnrolls(s, p, braktype, brak);
      p := p + 1;
      if c == '"' {
        p := ParseString(s, p);
        if At(s, p) == '"' { p := p + 1; }
      } else if c == '/' {
        if At(s, p) == '/' { p := Upto(s, p, "\n"); }
      } else if c == braktype {
        brak := brak + 1;
      } else if c == Closing(braktype) {
        brak := brak - 1;
        if brak == 0 { return p - 1, true; }
      }
    }
  }

  method ParseList(s: string, from: nat) returns (item: Item)
    requires from <= |s|
    ensures item == Next(s, from)
  {
    hide BlockEnd, StringEnd, WordEnd, Skip;
    var p := SkipList(s, from);
    var start, end, quoteStart, quoteEnd := p, p, p, p;
    match At(s, p) {
      case '"' =>
        start := p + 1;
        end := ParseString(s, start);
        p := if At(s, end) == '"' then end + 1 else end;
        quoteEnd := p;
      case '(' =>
        start := p + 1;
        var closed;
        end, closed := ParseBlock(s, start, '(');
        if !closed { return Item(start, end, quoteStart, end, end); }
        p := end + 1;
        quoteEnd := p;
      case '[' =>
        start := p + 1;
        var closed;
        end, closed := ParseBlock(s, start, '[');
        if !closed { return Item(start, end, quoteStart, end, end); }
        p := end + 1;
        quoteEnd := p;
      case '\0' => return Nothing(p);
      case ')' => return Nothing(p);
      case ']' => return Nothing(p);
      case _ =>
        p := ParseWord(s, p);
        end := p;
        quoteEnd := p;
    }
    p := SkipList(s, p);
    if At(s, p) == ';' { p := p + 1; }
    return Item(start, end, quoteStart, quoteEnd, p);
  }

  // ---------- Blocks read back ----------

  function Count(stack: string, open: char): nat {
    if stack == "" then 0 else Count(stack[..|stack| - 1], open) + if stack[|stack| - 1] == open then 1 else 0
  }

  lemma {:induction false} CountPush(stack: string, c: char, open: char)
    ensures Count(stack + [c], open) == Count(stack, open) + if c == open then 1 else 0
  {
    assert (stack + [c])[..|stack|] == stack;
  }

  /** A string that ends within a text ends at the same place wherever the text stands. */
  lemma {:induction false} EndWithin(s: string, i: nat, text: string, p: nat)
    requires i <= |s| && Stands(text, p, s) && At(s, StringEnd(s, i)) == '"'
    ensures StringEnd(text, p + i) == p + StringEnd(s, i)
    decreases |s| - i
  {
    if i < |s| {
      StandsAt(text, p, s, i);
      if i + 1 < |s| { StandsAt(text, p, s, i + 1); }
      match s[i]
      case '\0' =>
      case '\r' =>
      case '\n' =>
      case '"' =>
      case '^' => if At(s, i + 1) != '\0' { EndWithin(s, i + 2, text, p); }
      case _ => EndWithin(s, i + 1, text, p);
    }
  }

  /** One step over a validated text, and of the block parser over it where it stands. */
  ghost predicate Steps(s: string, i: nat, stack: string, j: nat, stack': string, text: string, p: nat, open: char) {
    && i < j <= |s| && Validates(s, j, stack') && p + |s| <= |text|
    && BlockEnd(text, p + i, open, 1 + Count(stack, open)) == BlockEnd(text, p + j, open, 1 + Count(stack', open))
  }

  lemma {:induction false} StepOpening(s: string, i: nat, stack: string, text: string, p: nat, open: char)
    requires i < |s| && Validates(s, i, stack) && Stands(text, p, s)
    requires (open == '[' || open == '(') && (s[i] == '[' || s[i] == '(')
    ensures Steps(s, i, stack, i + 1, stack + [s[i]], text, p, open)
  {
    StandsAt(text, p, s, i);
    CountPush(stack, s[i], open);
  }

  lemma {:induction false} StepClosing(s: string, i: nat, stack: string, text: string, p: nat, open: char)
    requires i < |s| && Validates(s, i, stack) && Stands(text, p, s)
    requires (open == '[' || open == '(') && (s[i] == ']' || s[i] == ')')
    ensures stack != "" && Steps(s, i, stack, i + 1, stack[..|stack| - 1], text, p, open)
  {
    StandsAt(text, p, s, i);
  }

  lemma {:induction false} StepQuote(s: string, i: nat, stack: string, text: string, p: nat, open: char)
    requires i < |s| && Validates(s, i, stack) && Stands(text, p, s) && s[i] == '"'
    ensures Steps(s, i, stack, StringEnd(s, i + 1) + 1, stack, text, p, open)
  {
    hide Count, BlockEnd, StringEnd, Stands;
    var e := StringEnd(s, i + 1);
    StandsAt(text, p, s, i);
    ValidQuote(s, i, stack);
    EndWithin(s, i + 1, text, p);
    StandsAt(text, p, s, e);
    StandsThere(text, p, s);
    BlockPastQuote(text, p + i, p + e, open, 1 + Count(stack, open));
  }

  lemma {:induction false} ValidQuote(s: string, i: nat, stack: string)
    requires i < |s| && Validates(s, i, stack) && s[i] == '"'
    ensures var e := StringEnd(s, i + 1); At(s, e) == '"' && i < e < |s| && Validates(s, e + 1, stack)
  {
    hide StringEnd;
  }

  lemma {:induction false} BlockPastQuote(s: string, p: nat, end: nat, open: char, brak: nat)
    requires p < |s| && s[p] == '"' && brak > 0 && StringEnd(s, p + 1) == end && At(s, end) == '"'
    ensures end < |s| && BlockEnd(s, p, open, brak) == BlockEnd(s, end + 1, open, brak)
  {
    hide StringEnd;
  }

  lemma {:induction false} StepOther(s: string, i: nat, stack: string, text: string, p: nat, open: char)
    requires i < |s| && Validates(s, i, stack) && Stands(text, p, s) && At(text, p + |s|) == Closing(open)
    requires (open == '[' || open == '(') && s[i] != '\0' && s[i] !in "[]()\""
    ensures Steps(s, i, stack, i + 1, stack, text, p, open)
  {
    hide Count, Stands;
    StandsAt(text, p, s, i);
    if i + 1 < |s| { StandsAt(text, p, s, i + 1); }
  }

  lemma {:induction false} ValidatesEnd(s: string, stack: string)
    requires Validates(s, |s|, stack)
    ensures stack == ""
  {
  }

  lemma {:induction false} Step(s: string, i: nat, stack: string, text: string, p: nat, open: char)
    returns (j: nat, rest: string)
    requires i < |s| && Validates(s, i, stack) && CString(s) && (open == '[' || open == '(')
    requires Stands(text, p, s) && At(text, p + |s|) == Closing(open)
    ensures Steps(s, i, stack, j, rest, text, p, open)
  {
    hide Stands, StringEnd, At, Validates, BlockEnd, Count, Steps;
    assert s[i] in s;
    if s[i] == '[' || s[i] == '(' {
      StepOpening(s, i, stack, text, p, open);
      j, rest := i + 1, stack + [s[i]];
    } else if s[i] == ']' || s[i] == ')' {
      StepClosing(s, i, stack, text, p, open);
      j, rest := i + 1, stack[..|stack| - 1];
    } else if s[i] == '"' {
      StepQuote(s, i, stack, text, p, open);
      j, rest := StringEnd(s, i + 1) + 1, stack;
    } else {
      StepOther(s, i, stack, text, p, open);
      j, rest := i + 1, stack;
    }
  }

  /** The block parser, which counts brackets of one kind only, ends where a validated text does: round brackets in
      a square block, and square ones in a round block, nest properly by themselves. */
  lemma {:induction false} BlockFollows(s: string, i: nat, stack: string, text: string, p: nat, open: char)
    requires i <= |s| && Validates(s, i, stack) && CString(s) && (open == '[' || open == '(')
    requires Stands(text, p, s) && p + |s| < |text| && At(text, p + |s|) == Closing(open)
    ensures BlockEnd(text, p + i, open, 1 + Count(stack, open)) == (p + |s|, true)
    decreases |s| - i
  {
    hide Stands, StringEnd, At;
    if i == |s| {
      ValidatesEnd(s, stack);
      return;
    }
    hide Validates, BlockEnd, Count, Closing;
    var j, rest := Step(s, i, stack, text, p, open);
    BlockFollows(s, j, rest, text, p, open);
  }

  /** Neither blank nor the start of a comment nor a semicolon. */
  predicate Opens(c: char) {
    c !in " \t\r\n/;"
  }

  lemma {:induction false} SkipNothing(s: string, p: nat)
    requires p <= |s| && Opens(At(s, p))
    ensures Skip(s, p) == p
  {
  }

  /** A validated text in brackets of either kind, followed by anything, is read back as it was. */
  lemma {:induction false} BlockReadBack(s: string, text: string, p: nat, open: char)
    requires CString(s) && Validates(s, 0, "") && (open == '[' || open == '(')
    requires Stands(text, p, [open] + s + [Closing(open)])
    ensures p + |s| + 2 <= |text| && text[p + 1..p + 1 + |s|] == s
    ensures Next(text, p) == Item(p + 1, p + 1 + |s|, p, p + |s| + 2, After(text, p + |s| + 2))
  {
    hide BlockEnd, Validates, After, Stands, Closing, Skip, StringEnd, WordEnd;
    assert [open] + s + [Closing(open)] == [open] + (s + [Closing(open)]);
    StandsSplit(text, p, [open], s + [Closing(open)]);
    StandsAt(text, p, [open], 0);
    StandsSplit(text, p + 1, s, [Closing(open)]);
    StandsThere(text, p + 1, s);
    StandsThere(text, p + 1 + |s|, [Closing(open)]);
    StandsAt(text, p + 1 + |s|, [Closing(open)], 0);
    BlockFollows(s, 0, "", text, p + 1, open);
    SkipNothing(text, p);
  }

  // ---------- Lists read back ----------

  datatype Quoted = Block(text: string) | Quotes(text: string) | Word(text: string)

  function Written(q: Quoted): string {
    match q
    case Block(t) => "[" + t + "]"
    case Quotes(t) => InQuotes(t)
    case Word(t) => t
  }

  /** A form that suits the text. */
  predicate Suits(q: Quoted) {
    CString(q.text) && match q
      case Block(t) => Validates(t, 0, "")
      case Quotes(t) => '\r' !in t
      case Word(t) => t != "" && forall k | 0 <= k < |t| :: t[k] !in WORDSTOPS
  }

  /** What the list parser finds of an item: strings are left as they were escaped. */
  function Found(q: Quoted): string {
    if q.Quotes? then Escaped(q.text) else q.text
  }

  function WrittenList(qs: seq<Quoted>): string {
    if qs == [] then "" else Written(qs[0]) + " " + WrittenList(qs[1..])
  }

  function AllFound(qs: seq<Quoted>): seq<string> {
    if qs == [] then [] else [Found(qs[0])] + AllFound(qs[1..])
  }

  datatype Exploded = Elements(list: seq<string>) | Endless

  /** `explodelist`: all items, or the first `limit`. Without limit it never comes past an `@`. */
  function Explode(s: string, p: nat, limit: int): Exploded
    requires p <= |s|
    decreases if limit < 0 then |s| - p else limit
  {
    if limit == 0 then Elements([])
    else match Next(s, p)
      case Nothing(_) => Elements([])
      case Item(start, end, _, _, next) =>
        if limit < 0 && next == p then Endless
        else match Explode(s, next, if limit < 0 then limit else limit - 1)
          case Endless => Endless
          case Elements(list) => Elements([s[start..end]] + list)
  }

  lemma {:induction false} ExplodeItem(s: string, p: nat, limit: int)
    requires p <= |s| && limit != 0 && Next(s, p).Item? && (limit < 0 ==> Next(s, p).next != p)
    ensures Explode(s, p, limit).Elements? <==> Explode(s, Next(s, p).next, if limit < 0 then limit else limit - 1).Elements?
    ensures Explode(s, p, limit).Elements? ==>
      Explode(s, p, limit).list == [s[Next(s, p).start..Next(s, p).end]] +
        Explode(s, Next(s, p).next, if limit < 0 then limit else limit - 1).list
  {
    hide Next;
  }

  lemma {:induction false} ExplodeEnds(s: string, p: nat, limit: int)
    requires p <= |s|
    ensures limit == 0 || Next(s, p).Nothing? ==> Explode(s, p, limit) == Elements([])
    ensures limit < 0 && Next(s, p).Item? && Next(s, p).next == p ==> Explode(s, p, limit) == Endless
  {
    hide Next;
  }

  method ExplodeList(s: string, limit: int) returns (elems: seq<string>)
    requires Explode(s, 0, limit) != Endless
    ensures Elements(elems) == Explode(s, 0, limit)
  {
    hide Next, Explode;
    elems := [];
    var p: nat := 0;
    ghost var left := limit;
    while limit < 0 || |elems| < limit
      invariant p <= |s| && left == (if limit < 0 then limit else limit - |elems|) && (limit >= 0 ==> left >= 0)
      invariant Explode(s, p, left).Elements? && Explode(s, 0, limit).list == elems + Explode(s, p, left).list
      decreases if limit < 0 then |s| - p else left
    {
      ExplodeEnds(s, p, left);
      var item := ParseList(s, p);
      if item.Nothing? { break; }
      ExplodeItem(s, p, left);
      elems := elems + [s[item.start..item.end]];
      p := item.next;
      left := if limit < 0 then limit else left - 1;
    }
    ExplodeEnds(s, p, left);
    assert elems + [] == elems;
  }

  lemma {:induction false} AfterBlank(s: string, p: nat)
    requires p < |s| && s[p] == ' ' && Opens(At(s, p + 1))
    ensures After(s, p) == p + 1
  {
    assert Past(s, p, " \t\r\n") == Past(s, p + 1, " \t\r\n") == p + 1;
  }

  lemma {:induction false} WordPasses(s: string, p: nat)
    requires p < |s| && s[p] != '\0' && s[p] !in WORDSTOPS
    ensures WordEnd(s, p, "") == WordEnd(s, p + 1, "")
  {
  }

  lemma {:induction false} WordHalts(s: string, p: nat)
    requires p < |s| && s[p] == ' '
    ensures WordEnd(s, p, "") == p
  {
  }

  lemma {:induction false} WordStands(t: string, k: nat, text: string, p: nat)
    requires k <= |t| && Suits(Word(t)) && Stands(text, p, t) && p + |t| < |text| && text[p + |t|] == ' '
    ensures WordEnd(text, p + k, "") == p + |t|
    decreases |t| - k
  {
    if k == |t| {
      WordHalts(text, p + k);
    } else {
      StandsAt(text, p, t, k);
      assert t[k] in t && t[k] !in WORDSTOPS;
      WordPasses(text, p + k);
      hide *;
      WordStands(t, k + 1, text, p);
    }
  }

  /** An item is found where it was written, and the parser goes on to the next. */
  ghost predicate ReadBack(text: string, p: nat, q: Quoted)
    requires p <= |text|
  {
    var item := Next(text, p);
    item.Item? && text[item.start..item.end] == Found(q) && item.next == p + |Written(q)| + 1
  }

  lemma {:induction false} BlockItem(text: string, p: nat, t: string)
    requires Suits(Block(t)) && Stands(text, p, Written(Block(t))) && p + |t| + 2 < |text|
    requires text[p + |t| + 2] == ' ' && Opens(At(text, p + |t| + 3))
    ensures ReadBack(text, p, Block(t))
  {
    hide Next, After, Validates, Stands, BlockEnd, Skip, Upto, CString;
    BlockReadBack(t, text, p, '[');
    AfterBlank(text, p + |t| + 2);
  }

  lemma {:induction false} QuotesItem(text: string, p: nat, t: string)
    requires Suits(Quotes(t)) && Stands(text, p, Written(Quotes(t))) && p + |InQuotes(t)| < |text|
    requires text[p + |InQuotes(t)|] == ' ' && Opens(At(text, p + |InQuotes(t)| + 1))
    ensures ReadBack(text, p, Quotes(t))
  {
    hide After, Skip, StringEnd, Escaped, BlockEnd, WordEnd, Stands, Kept, Upto, Next;
    EndOfQuoted(text, p, t);
    KeptAll(t);
    StandsThere(text, p + 1, Escaped(t));
    NextQuotes(text, p, p + 1 + |Escaped(t)|);
    AfterBlank(text, p + |InQuotes(t)|);
  }

  /** The list parser at an opening quote. */
  lemma {:induction false} NextQuotes(text: string, p: nat, end: nat)
    requires p < |text| && At(text, p) == '"' && StringEnd(text, p + 1) == end && end <= |text| && At(text, end) == '"'
    ensures end < |text| && Next(text, p) == Item(p + 1, end, p, end + 1, After(text, end + 1))
  {
    hide After, Skip, StringEnd, BlockEnd, WordEnd;
    SkipNothing(text, p);
  }

  lemma {:induction false} WordItem(text: string, p: nat, t: string)
    requires Suits(Word(t)) && Stands(text, p, t) && p + |t| < |text|
    requires text[p + |t|] == ' ' && Opens(At(text, p + |t| + 1))
    ensures ReadBack(text, p, Word(t))
  {
    hide After, Skip, StringEnd, BlockEnd, WordEnd;
    WordStands(t, 0, text, p);
    StandsAt(text, p, t, 0);
    assert t[0] in t && t[0] !in WORDSTOPS;
    SkipNothing(text, p);
    AfterBlank(text, p + |t|);
  }

  lemma {:induction false} WrittenOpens(q: Quoted)
    requires Suits(q)
    ensures Written(q) != "" && Opens(Written(q)[0])
  {
    hide Validates, Escaped;
    if q.Word? {
      assert q.text[0] !in WORDSTOPS;
    }
  }

  lemma {:induction false} ItemReadBack(text: string, p: nat, q: Quoted)
    requires p <= |text| && Suits(q) && Stands(text, p, Written(q) + " ") && Opens(At(text, p + |Written(q)| + 1))
    ensures ReadBack(text, p, q)
  {
    hide Suits, ReadBack, Opens, Stands;
    StandsSplit(text, p, Written(q), " ");
    StandsAt(text, p + |Written(q)|, " ", 0);
    match q
    case Block(t) => BlockItem(text, p, t);
    case Quotes(t) => QuotesItem(text, p, t);
    case Word(t) => WordItem(text, p, t);
  }

  lemma {:induction false} NextOpens(text: string, p: nat, qs: seq<Quoted>)
    requires p <= |text| && (forall q | q in qs :: Suits(q))
    requires Stands(text, p, WrittenList(qs)) && p + |WrittenList(qs)| == |text|
    ensures Opens(At(text, p))
  {
    hide Suits, Written, Stands;
    if qs != [] {
      WrittenOpens(qs[0]);
      StandsAt(text, p, WrittenList(qs), 0);
    }
  }

  /** A list of texts, each written in a form that suits it, is read back as the texts, in order. */
  lemma {:induction false} ListReadBack(text: string, p: nat, qs: seq<Quoted>)
    requires p <= |text| && forall q | q in qs :: Suits(q)
    requires Stands(text, p, WrittenList(qs)) && p + |WrittenList(qs)| == |text|
    ensures Explode(text, p, -1) == Elements(AllFound(qs))
    decreases qs
  {
    hide Suits, Written, Stands, Found, Opens;
    if qs == [] {
      NextOpens(text, p, qs);
      SkipNothing(text, p);
    } else {
      hide Next, Explode;
      var q, rest := qs[0], qs[1..];
      var n := p + |Written(q)| + 1;
      StandsSplit(text, p, Written(q) + " ", WrittenList(rest));
      assert forall r | r in rest :: r in qs;
      NextOpens(text, n, rest);
      ItemReadBack(text, p, q);
      ListReadBack(text, n, rest);
      ExplodeItem(text, p, -1);
    }
  }

  /** From the list itself to the texts that were meant: the strings still have to be unescaped. */
  lemma {:induction false} WrittenListReadBack(qs: seq<Quoted>)
    requires forall q | q in qs :: Suits(q)
    ensures Explode(WrittenList(qs), 0, -1) == Elements(AllFound(qs)) && |AllFound(qs)| == |qs|
    ensures forall k | 0 <= k < |qs| ::
      (if qs[k].Quotes? then Unescaped(AllFound(qs)[k]) else AllFound(qs)[k]) == qs[k].text
  {
    hide Suits, Written, Explode, WrittenList;
    assert WrittenList(qs)[0..|WrittenList(qs)|] == WrittenList(qs);
    ListReadBack(WrittenList(qs), 0, qs);
    FoundMeans(qs);
  }

  lemma {:induction false} FoundMeans(qs: seq<Quoted>)
    ensures |AllFound(qs)| == |qs|
    ensures forall k | 0 <= k < |qs| ::
      (if qs[k].Quotes? then Unescaped(AllFound(qs)[k]) else AllFound(qs)[k]) == qs[k].text
  {
    hide Unescaped, Escaped;
    if qs != [] {
      FoundMeans(qs[1..]);
      UnescapeUndoes(qs[0].text);
      forall k | 1 <= k < |qs|
        ensures (if qs[k].Quotes? then Unescaped(AllFound(qs)[k]) else AllFound(qs)[k]) == qs[k].text
      {
        assert AllFound(qs)[k] == AllFound(qs[1..])[k - 1];
      }
    }
  }
}
