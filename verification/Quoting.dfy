/** Quoting in the script engine, engine/command.cpp: strings with `^` escapes, blocks in brackets, and the list
    parser that reads both back. A text is the contents of a C string: reading at its end gives NUL. */
module Quoting {

  const MAXBRAK := 100
  const FORMFEED: char := '\U{0C}'

  function At(s: string, p: nat): char {
    if p < |s| then s[p] else '\0'
  }

  predicate CString(s: string) {
    '\0' !in s
  }

  /** The characters of `u` stand in `s` at `p`. */
  predicate Stands(s: string, p: nat, u: string) {
    p + |u| <= |s| && s[p..p + |u|] == u
  }

  lemma {:induction false} StandsSplit(s: string, p: nat, u: string, v: string)
    ensures Stands(s, p, u + v) <==> Stands(s, p, u) && Stands(s, p + |u|, v)
  {
    if Stands(s, p, u + v) {
      assert s[p..p + |u|] == (u + v)[..|u|] == u;
      assert s[p + |u|..p + |u| + |v|] == (u + v)[|u|..] == v;
    }
  }

  lemma {:induction false} StandsAt(s: string, p: nat, u: string, k: nat)
    requires Stands(s, p, u) && k < |u|
    ensures At(s, p + k) == u[k] && p + k < |s|
  {
    assert s[p..p + |u|][k] == u[k];
  }

  lemma {:induction false} StandsThere(s: string, p: nat, u: string)
    requires Stands(s, p, u)
    ensures p + |u| <= |s| && s[p..p + |u|] == u
  {
  }

  /** `strcspn`, as the place where it stops. */
  function Upto(s: string, p: nat, stops: string): (q: nat)
    requires p <= |s|
    ensures p <= q <= |s|
    ensures At(s, q) == '\0' || At(s, q) in stops
    ensures forall k | p <= k < q :: s[k] != '\0' && s[k] !in stops
    decreases |s| - p
  {
    if At(s, p) == '\0' || At(s, p) in stops then p else Upto(s, p + 1, stops)
  }

  /** `strspn`, likewise. */
  function Past(s: string, p: nat, run: string): (q: nat)
    requires p <= |s| && CString(run)
    ensures p <= q <= |s|
    ensures At(s, q) !in run
    ensures forall k | p <= k < q :: s[k] in run
    decreases |s| - p
  {
    if p < |s| && s[p] in run then Past(s, p + 1, run) else p
  }

  // ---------- Strings ----------

  /** Where the string whose first character is at `p` ends. */
  function StringEnd(s: string, p: nat): (q: nat)
    requires p <= |s|
    ensures p <= q <= |s|
    decreases |s| - p
  {
    match At(s, p)
    case '\0' => p
    case '\r' => p
    case '\n' => p
    case '"' => p
    case '^' => if At(s, p + 1) == '\0' then p + 1 else StringEnd(s, p + 2)
    case _ => StringEnd(s, p + 1)
  }

  method ParseString(s: string, start: nat) returns (p: nat)
    requires start <= |s|
    ensures p == StringEnd(s, start)
  {
    p := start;
    while At(s, p) != '\0'
      invariant start <= p <= |s|
      invariant StringEnd(s, p) == StringEnd(s, start)
      decreases |s| - p
    {
      match At(s, p) {
        case '\r' => return;
        case '\n' => return;
        case '"' => return;
        case '^' =>
          p := p + 1;
          if At(s, p) == '\0' { return; }
        case _ =>
      }
      p := p + 1;
    }
  }

  function Meant(e: char): char {
    match e
    case 'n' => '\n'
    case 't' => '\t'
    case 'f' => FORMFEED
    case _ => e
  }

  function Unescaped(src: string): (r: string)
    ensures |r| <= |src|
  {
    if src == "" then ""
    else if src[0] != '^' then [src[0]] + Unescaped(src[1..])
    else if |src| == 1 then ""
    else [Meant(src[1])] + Unescaped(src[2..])
  }

  lemma {:induction false} UnescapeFrom(src: string, i: nat)
    requires i < |src|
    ensures Unescaped(src[i..]) ==
      if src[i] != '^' then [src[i]] + Unescaped(src[i + 1..])
      else if i + 1 == |src| then ""
      else [Meant(src[i + 1])] + Unescaped(src[i + 2..])
  {
    hide Meant;
    assert src[i..][1..] == src[i + 1..];
    if i + 1 < |src| {
      assert src[i..][2..] == src[i + 2..];
    }
  }

  lemma {:induction false} NothingEscaped()
    ensures Unescaped("") == Escaped("") == ""
  {
  }

  /** `*dst++ = c`. */
  method PutChar(dst: array<char>, n: nat, c: char) returns (n': nat)
    requires n < dst.Length
    modifies dst
    ensures n' == n + 1 && dst[..n'] == old(dst[..n]) + [c] && dst[n'..] == old(dst[n'..])
  {
    dst[n] := c;
    n' := n + 1;
  }

  method UnescapeString(dst: array<char>, src: string) returns (n: nat)
    requires |src| <= dst.Length
    modifies dst
    ensures n <= |src| && dst[..n] == Unescaped(src)
    ensures dst[n..] == old(dst[n..])
  {
    hide Unescaped, Meant;
    NothingEscaped();
    ghost var was := dst[..];
    n := 0;
    var i: nat := 0;
    assert src[0..] == src;
    while i < |src|
      invariant n <= i <= |src|
      invariant dst[..n] + Unescaped(src[i..]) == Unescaped(src)
      invariant dst[n..] == was[n..]
    {
      ghost var done := dst[..n];
      UnescapeFrom(src, i);
      var c := src[i];
      i := i + 1;
      if c == '^' {
        if i >= |src| { break; }
        c := Meant(src[i]);
        i := i + 1;
      }
      assert was[n..][1..] == was[n + 1..];
      n := PutChar(dst, n, c);
      assert done + ([c] + Unescaped(src[i..])) == dst[..n] + Unescaped(src[i..]);
    }
    assert i == |src| ==> src[i..] == "";
  }

  /** `cutstring`: the string whose opening quote is at `p`, and where it leaves off. */
  function Cut(s: string, p: nat): (r: (string, nat))
    requires p < |s|
    ensures p < r.1 <= |s|
  {
    var end := StringEnd(s, p + 1);
    (Unescaped(s[p + 1..end]), if At(s, end) == '"' then end + 1 else end)
  }

  method CutString(s: string, start: nat) returns (t: string, p: nat)
    requires start < |s|
    ensures (t, p) == Cut(s, start)
  {
    p := start + 1;
    var end := ParseString(s, p);
    var buffer := new char[end - p + 1];
    var n := UnescapeString(buffer, s[p..end]);
    t := buffer[..n];
    p := end;
    if At(s, p) == '"' { p := p + 1; }
  }

  function EscapedChar(c: char): string {
    match c
    case '\n' => "^n"
    case '\t' => "^t"
    case '"' => "^\""
    case '^' => "^^"
    case _ => if c == FORMFEED then "^f" else [c]
  }

  function Escaped(t: string): string {
    if t == "" then "" else EscapedChar(t[0]) + Escaped(t[1..])
  }

  function InQuotes(t: string): string {
    "\"" + Escaped(t) + "\""
  }

  lemma {:induction false} EscapedSnoc(t: string, c: char)
    ensures Escaped(t + [c]) == Escaped(t) + EscapedChar(c)
    decreases t
  {
    if t == "" {
      assert t + [c] == [c] && [c][1..] == "";
      assert Escaped([c]) == EscapedChar(c) + Escaped("");
    } else {
      assert (t + [c])[0] == t[0] && (t + [c])[1..] == t[1..] + [c];
      EscapedSnoc(t[1..], c);
    }
  }

  lemma {:induction false} EscapedConcat(t: string, u: string)
    ensures Escaped(t + u) == Escaped(t) + Escaped(u)
    decreases t
  {
    if t == "" {
      assert t + u == u;
    } else {
      assert (t + u)[0] == t[0] && (t + u)[1..] == t[1..] + u;
      EscapedConcat(t[1..], u);
    }
  }

  method EscapeString(s: string) returns (buf: string)
    requires CString(s)
    ensures buf == InQuotes(s)
  {
    hide Escaped;
    NothingEscaped();
    buf := "\"";
    var p: nat := 0;
    assert s[..p] == "";
    while p < |s|
      invariant p <= |s| && buf == "\"" + Escaped(s[..p])
    {
      EscapedSnoc(s[..p], s[p]);
      assert s[..p + 1] == s[..p] + [s[p]];
      match s[p] {
        case '\n' => buf := buf + "^n";
        case '\t' => buf := buf + "^t";
        case '"' => buf := buf + "^\"";
        case '^' => buf := buf + "^^";
        case _ =>
          if s[p] == FORMFEED { buf := buf + "^f"; } else { buf := buf + [s[p]]; }
      }
      p := p + 1;
    }
    assert s[..p] == s;
    buf := buf + "\"";
  }

  lemma {:induction false} UnescapeChar(c: char, rest: string)
    ensures Unescaped(EscapedChar(c) + rest) == [c] + Unescaped(rest)
  {
    var e := EscapedChar(c);
    if |e| == 1 {
      assert (e + rest)[0] == c && c != '^';
      assert (e + rest)[1..] == rest;
    } else {
      assert (e + rest)[0] == '^' && Meant((e + rest)[1]) == c;
      assert (e + rest)[2..] == rest;
    }
  }

  /** Escaping is undone, whatever is escaped. */
  lemma {:induction false} UnescapeUndoes(t: string)
    ensures Unescaped(Escaped(t)) == t
  {
    hide EscapedChar;
    if t == "" {
    } else {
      UnescapeUndoes(t[1..]);
      UnescapeChar(t[0], Escaped(t[1..]));
    }
  }

  lemma {:induction false} EndAfterChar(s: string, p: nat, c: char)
    requires p <= |s| && Stands(s, p, EscapedChar(c)) && c != '\0' && c != '\r'
    ensures p + |EscapedChar(c)| <= |s| && StringEnd(s, p) == StringEnd(s, p + |EscapedChar(c)|)
  {
    hide Stands;
    var e := EscapedChar(c);
    StandsAt(s, p, e, 0);
    if |e| == 2 { StandsAt(s, p, e, 1); }
  }

  /** The parser passes over an escaped text as long as it has no carriage return. */
  lemma {:induction false} EndAfterEscaped(s: string, p: nat, t: string)
    requires p <= |s| && Stands(s, p, Escaped(t)) && CString(t) && '\r' !in t
    ensures p + |Escaped(t)| <= |s| && StringEnd(s, p) == StringEnd(s, p + |Escaped(t)|)
    decreases t
  {
    hide Stands, EscapedChar;
    if t != "" {
      var e := EscapedChar(t[0]);
      StandsSplit(s, p, e, Escaped(t[1..]));
      assert t[0] in t;
      EndAfterChar(s, p, t[0]);
      EndAfterEscaped(s, p + |e|, t[1..]);
    }
  }

  /** How much of a text survives quoting: what is before its first carriage return. */
  function Kept(t: string): string {
    t[..Upto(t, 0, "\r")]
  }

  lemma {:induction false} KeptAll(t: string)
    requires CString(t)
    ensures Kept(t) == t <==> '\r' !in t
  {
    var k := Upto(t, 0, "\r");
    if k < |t| {
      assert t[k] in t;
      assert t[k] == '\r';
    } else {
      assert t[..k] == t;
    }
  }

  lemma {:induction false} KeptClean(t: string)
    requires CString(t)
    ensures CString(Kept(t)) && '\r' !in Kept(t)
  {
  }

  lemma {:induction false} StandsInQuotes(s: string, p: nat, t: string)
    requires Stands(s, p, InQuotes(t))
    ensures At(s, p) == '"' && Stands(s, p + 1, Escaped(t)) && At(s, p + 1 + |Escaped(t)|) == '"'
    ensures p + 1 + |Escaped(t)| < |s|
  {
    hide Escaped, Stands, At;
    StandsSplit(s, p, "\"" + Escaped(t), "\"");
    StandsSplit(s, p, "\"", Escaped(t));
    StandsAt(s, p, "\"", 0);
    StandsAt(s, p + 1 + |Escaped(t)|, "\"", 0);
  }

  lemma {:induction false} ReturnFirst(t: string)
    requires t != "" && t[0] == '\r'
    ensures Escaped(t) == "\r" + Escaped(t[1..])
  {
  }

  lemma {:induction false} EscapedReturn(t: string) returns (rest: string)
    requires CString(t) && '\r' in t
    ensures Escaped(t) == Escaped(Kept(t)) + "\r" + rest
  {
    hide Escaped, EscapedChar;
    var k := Upto(t, 0, "\r");
    KeptAll(t);
    assert t[k] in t;
    EscapedConcat(t[..k], t[k..]);
    assert t[..k] + t[k..] == t;
    ReturnFirst(t[k..]);
    rest := Escaped(t[k..][1..]);
    assert Escaped(t[..k]) + ("\r" + rest) == Escaped(t[..k]) + "\r" + rest;
  }

  lemma {:induction false} EndOfQuoted(s: string, p: nat, t: string)
    requires CString(t) && Stands(s, p, InQuotes(t))
    ensures Stands(s, p + 1, Escaped(Kept(t))) && At(s, p) == '"'
    ensures StringEnd(s, p + 1) == p + 1 + |Escaped(Kept(t))|
    ensures At(s, p + 1 + |Escaped(Kept(t))|) == if '\r' in t then '\r' else '"'
  {
    hide EscapedChar, Escaped, Stands, At, Upto, Kept, InQuotes;
    var kept := Kept(t);
    var end := p + 1 + |Escaped(kept)|;
    StandsInQuotes(s, p, t);
    KeptAll(t);
    KeptClean(t);
    if '\r' in t {
      var rest := EscapedReturn(t);
      StandsSplit(s, p + 1, Escaped(kept) + "\r", rest);
      StandsSplit(s, p + 1, Escaped(kept), "\r");
      StandsAt(s, end, "\r", 0);
    }
    EndAfterEscaped(s, p + 1, kept);
    assert StringEnd(s, end) == end;
  }

  /** Reading a quoted text gives it back up to the first carriage return, which the quoting leaves as it is and the
      parser takes for the end of the string. */
  lemma {:induction false} CutQuoted(s: string, p: nat, t: string)
    requires CString(t) && Stands(s, p, InQuotes(t))
    ensures p < |s| && Cut(s, p).0 == Kept(t)
    ensures Cut(s, p).1 == if '\r' in t then p + 1 + |Escaped(Kept(t))| else p + |InQuotes(t)|
  {
    hide EscapedChar, Escaped, Upto, Kept, StringEnd, Unescaped;
    EndOfQuoted(s, p, t);
    KeptAll(t);
    UnescapeUndoes(Kept(t));
  }

  /** A quoted text is read back just when it has no carriage return. */
  lemma {:induction false} QuotedReadBack(t: string, rest: string)
    requires CString(t)
    ensures Cut(InQuotes(t) + rest, 0) == (t, |InQuotes(t)|) <==> '\r' !in t
  {
    var s := InQuotes(t) + rest;
    hide Escaped, Cut, Kept;
    assert s[0..|InQuotes(t)|] == InQuotes(t);
    CutQuoted(s, 0, t);
    KeptAll(t);
  }

  /** Five characters are escaped, each by a caret and a character of its own; all others are left as they are. */
  lemma EscapesFive(c: char)
    ensures c !in "\n\t\"^" && c != FORMFEED <==> EscapedChar(c) == [c]
    ensures EscapedChar('\n') == "^n" && EscapedChar('\t') == "^t" && EscapedChar(FORMFEED) == "^f"
    ensures EscapedChar('"') == "^\"" && EscapedChar('^') == "^^"
  {
  }

  lemma {:induction false} EscapedPlain(t: string, c: char)
    requires c == '\n' || c == '\t' || c == FORMFEED
    ensures c !in Escaped(t)
  {
    if t != "" {
      EscapedPlain(t[1..], c);
    }
  }

  /** A quoted text stands on one line: it has no line feed, tab or form feed in it. */
  lemma {:induction false} QuotedPlain(t: string)
    ensures '\n' !in InQuotes(t) && '\t' !in InQuotes(t) && FORMFEED !in InQuotes(t)
  {
    hide Escaped;
    EscapedPlain(t, '\n');
    EscapedPlain(t, '\t');
    EscapedPlain(t, FORMFEED);
  }
}
