/** Signed requests to the facilitator (src/x402-request-auth.ts) and the verifier with a replay
    window (contrib/x402-wave-407-411/request-auth-vectors.ts). */
module RequestAuth {
  import opened Prelude
  import opened Decimal
  import Base64
  import TokenAmounts

  /** What the JavaScript platform provides: `toUpperCase`, `Number(text)` (`None` unless finite) and
      HMAC-SHA256 of a secret and a message. */
  datatype Platform = Platform(upper: string -> string, number: string -> Option<real>,
                               hmac: (string, string) -> seq<Base64.Byte>)

  ghost predicate Lawful(p: Platform) {
    && (forall n: int :: p.number(SignedDecimal(n)) == Some(n as real))
    && (forall secret: string, message: string :: p.hmac(secret, message) != [])
  }

  datatype Request = Request(verb: string, path: string, body: Option<string>)

  datatype Headers = Headers(keyId: string, timestamp: string, nonce: string, signature: string)

  function BodyText(r: Request): string { if r.body.Some? then r.body.value else "" }

  // ----- The canonical string -----

  const NEWLINE := '\n'

  function Join(lines: seq<string>): string
    requires lines != []
  {
    if |lines| == 1 then lines[0] else lines[0] + ([NEWLINE] + Join(lines[1..]))
  }

  function Lines(p: Platform, r: Request, timestamp: string, nonce: string): seq<string> {
    [p.upper(r.verb), r.path, timestamp, nonce, BodyText(r)]
  }

  /** `canonicalRequestString`. */
  function Canonical(p: Platform, r: Request, timestamp: string, nonce: string): string {
    Join(Lines(p, r, timestamp, nonce))
  }

  /** An omitted body is signed like an empty one. */
  lemma OmittedBodyIsEmpty(p: Platform, verb: string, path: string, timestamp: string, nonce: string)
    ensures Canonical(p, Request(verb, path, None), timestamp, nonce)
         == Canonical(p, Request(verb, path, Some("")), timestamp, nonce)
  {
  }

  /** A verifier's reading: cut `n` lines off, keep the rest as it is. */
  function CutLines(s: string, n: nat): Option<seq<string>> {
    if n == 0 then Some([s])
    else
      var i := IndexOf(s, NEWLINE);
      if i == |s| then None
      else
        var rest := CutLines(s[i + 1..], n - 1);
        if rest.None? then None else Some([s[..i]] + rest.value)
  }

  lemma Glued(u: string, s: string, c: char, t: string)
    ensures u == s + ([c] + t) <==> |s| < |u| && u[..|s|] == s && u[|s|] == c && u[|s| + 1..] == t
  {
    if |s| < |u| && u[..|s|] == s && u[|s|] == c && u[|s| + 1..] == t {
      assert u == u[..|s|] + ([u[|s|]] + u[|s| + 1..]);
    }
  }

  lemma IndexIs(u: string, s: string, c: char)
    requires |s| < |u| && u[..|s|] == s && u[|s|] == c && c !in s
    ensures IndexOf(u, c) == |s|
  {
    assert forall k :: 0 <= k < |s| ==> u[k] == s[k];
  }

  /** A text with a `c` is what precedes the first one, that one, and what follows. */
  lemma SplitAtIndex(s: string, c: char)
    requires IndexOf(s, c) < |s|
    ensures s == s[..IndexOf(s, c)] + ([c] + s[IndexOf(s, c) + 1..]) && c !in s[..IndexOf(s, c)]
  {
    var i := IndexOf(s, c);
    Glued(s, s[..i], c, s[i + 1..]);
  }

  /** `Join`, read from the result. */
  ghost predicate IsJoin(s: string, lines: seq<string>)
    requires lines != []
  {
    if |lines| == 1 then s == lines[0]
    else
      && |lines[0]| < |s| && s[..|lines[0]|] == lines[0] && s[|lines[0]|] == NEWLINE
      && IsJoin(s[|lines[0]| + 1..], lines[1..])
  }

  lemma {:induction false} IsJoinMeans(s: string, lines: seq<string>)
    requires lines != []
    ensures IsJoin(s, lines) <==> s == Join(lines)
  {
    if |lines| > 1 {
      Glued(s, lines[0], NEWLINE, Join(lines[1..]));
      if |lines[0]| < |s| {
        IsJoinMeans(s[|lines[0]| + 1..], lines[1..]);
      }
    }
  }

  /** The first `n` lines hold no newline. */
  ghost predicate CleanUpTo(lines: seq<string>, n: nat)
    requires n <= |lines|
  {
    forall i :: 0 <= i < n ==> NEWLINE !in lines[i]
  }

  lemma CleanCons(line: string, rest: seq<string>, n: nat)
    requires n <= |rest|
    ensures NEWLINE !in line && CleanUpTo(rest, n) <==> CleanUpTo([line] + rest, n + 1)
  {
    var lines := [line] + rest;
    assert lines[0] == line && forall i :: 0 <= i < |rest| ==> lines[i + 1] == rest[i];
    if CleanUpTo(lines, n + 1) {
      forall i | 0 <= i < n ensures NEWLINE !in rest[i] {
        assert NEWLINE !in lines[i + 1];
      }
    }
  }

  lemma IsJoinCons(s: string, line: string, rest: seq<string>)
    requires rest != []
    ensures IsJoin(s, [line] + rest) <==>
      |line| < |s| && s[..|line|] == line && s[|line|] == NEWLINE && IsJoin(s[|line| + 1..], rest)
  {
    var lines := [line] + rest;
    assert lines[0] == line && lines[1..] == rest;
  }

  /** What is cut off are lines, and joining them gives the text back. */
  lemma {:induction false} CutLinesJoin(s: string, n: nat)
    requires CutLines(s, n).Some?
    ensures var lines := CutLines(s, n).value; |lines| == n + 1 && IsJoin(s, lines) && CleanUpTo(lines, n)
  {
    if n > 0 {
      var i := IndexOf(s, NEWLINE);
      CutLinesJoin(s[i + 1..], n - 1);
      OneLineMore(s, i, CutLines(s[i + 1..], n - 1).value);
    }
  }

  lemma OneLineMore(s: string, i: nat, rest: seq<string>)
    requires i == IndexOf(s, NEWLINE) < |s| && rest != [] && IsJoin(s[i + 1..], rest) && CleanUpTo(rest, |rest| - 1)
    ensures IsJoin(s, [s[..i]] + rest) && CleanUpTo([s[..i]] + rest, |rest|)
  {
    IsJoinCons(s, s[..i], rest);
    CleanCons(s[..i], rest, |rest| - 1);
  }

  /** The lines are read back exactly when no line but the last contains a newline. */
  lemma CutLinesOfJoin(lines: seq<string>)
    requires lines != []
    ensures CutLines(Join(lines), |lines| - 1) == Some(lines) <==> CleanUpTo(lines, |lines| - 1)
  {
    if CutLines(Join(lines), |lines| - 1) == Some(lines) {
      CutLinesJoin(Join(lines), |lines| - 1);
    }
    if CleanUpTo(lines, |lines| - 1) {
      IsJoinMeans(Join(lines), lines);
      CleanLinesCut(Join(lines), lines);
    }
  }

  lemma {:induction false} CleanLinesCut(s: string, lines: seq<string>)
    requires lines != [] && IsJoin(s, lines) && CleanUpTo(lines, |lines| - 1)
    ensures CutLines(s, |lines| - 1) == Some(lines)
    decreases |lines|, 1
  {
    if |lines| == 1 {
      assert lines == [lines[0]];
    } else {
      assert lines == [lines[0]] + lines[1..];
      CleanConsCut(s, lines[0], lines[1..]);
    }
  }

  lemma {:induction false} CleanConsCut(s: string, line: string, rest: seq<string>)
    requires rest != [] && IsJoin(s, [line] + rest) && CleanUpTo([line] + rest, |rest|)
    ensures CutLines(s, |rest|) == Some([line] + rest)
    decreases |rest|, 2
  {
    IsJoinCons(s, line, rest);
    CleanCons(line, rest, |rest| - 1);
    IndexIs(s, line, NEWLINE);
    CleanLinesCut(s[|line| + 1..], rest);
    CutStep(s, |rest|, line, rest);
  }

  lemma CutStep(s: string, n: nat, line: string, rest: seq<string>)
    requires n > 0 && IndexOf(s, NEWLINE) == |line| < |s| && s[..|line|] == line
    requires CutLines(s[|line| + 1..], n - 1) == Some(rest)
    ensures CutLines(s, n) == Some([line] + rest)
  {
  }

  function Newlines(s: string): nat { multiset(s)[NEWLINE] }

  /** Lines can be cut off as long as there are newlines. */
  lemma {:induction false} CutSucceedsIff(s: string, n: nat)
    ensures CutLines(s, n).Some? <==> Newlines(s) >= n
  {
    var i := IndexOf(s, NEWLINE);
    if n > 0 && i < |s| {
      CutSucceedsIff(s[i + 1..], n - 1);
      NewlinesFrom(s, i);
    }
  }

  lemma NewlinesFrom(s: string, i: nat)
    requires i == IndexOf(s, NEWLINE) < |s|
    ensures Newlines(s) == 1 + Newlines(s[i + 1..])
  {
    SplitAtIndex(s, NEWLINE);
    NewlinesGlued(s[..i], s[i + 1..]);
    assert NEWLINE !in multiset(s[..i]);
  }

  lemma NewlinesGlued(a: string, b: string)
    ensures Newlines(a + ([NEWLINE] + b)) == Newlines(a) + 1 + Newlines(b)
  {
    assert multiset(a + ([NEWLINE] + b)) == multiset(a) + (multiset{NEWLINE} + multiset(b));
  }

  function NewlinesIn(lines: seq<string>): nat {
    if lines == [] then 0 else Newlines(lines[0]) + NewlinesIn(lines[1..])
  }

  lemma {:induction false} NewlinesOfJoin(lines: seq<string>)
    requires lines != []
    ensures Newlines(Join(lines)) == NewlinesIn(lines) + |lines| - 1
  {
    if |lines| > 1 {
      NewlinesOfJoin(lines[1..]);
      NewlinesGlued(lines[0], Join(lines[1..]));
    }
  }

  lemma {:induction false} NoNewlines(lines: seq<string>)
    ensures NewlinesIn(lines) == 0 <==> CleanUpTo(lines, |lines|)
  {
    if lines != [] {
      NoNewlines(lines[1..]);
      assert lines == [lines[0]] + lines[1..];
      CleanCons(lines[0], lines[1..], |lines| - 1);
    }
  }

  predicate OneLineMethod(p: Platform, r: Request) { NEWLINE !in p.upper(r.verb) }

  /** The four fields before the body hold no newline. */
  predicate Clean(p: Platform, r: Request, timestamp: string, nonce: string) {
    NEWLINE !in p.upper(r.verb) && NEWLINE !in r.path && NEWLINE !in timestamp && NEWLINE !in nonce
  }

  /** The canonical string determines the signed fields exactly when those before the body hold no
      newline; the body is arbitrary. */
  lemma CanonicalReadsBack(p: Platform, r: Request, timestamp: string, nonce: string)
    ensures CutLines(Canonical(p, r, timestamp, nonce), 4) == Some(Lines(p, r, timestamp, nonce))
         <==> Clean(p, r, timestamp, nonce)
  {
    var lines := Lines(p, r, timestamp, nonce);
    CutLinesOfJoin(lines);
    assert CleanUpTo(lines, 4) <==> Clean(p, r, timestamp, nonce) by {
      assert lines[0] == p.upper(r.verb) && lines[1] == r.path && lines[2] == timestamp && lines[3] == nonce;
    }
  }

  /** Up to the case of the method, and with an omitted body meaning an empty one. */
  predicate SameRequest(p: Platform, r: Request, r': Request) {
    p.upper(r.verb) == p.upper(r'.verb) && r.path == r'.path && BodyText(r) == BodyText(r')
  }

  lemma CanonicalIsInjective(p: Platform, r: Request, t: string, n: string, r': Request, t': string, n': string)
    requires Clean(p, r, t, n) && Clean(p, r', t', n')
    ensures Canonical(p, r, t, n) == Canonical(p, r', t', n') <==> SameRequest(p, r, r') && t == t' && n == n'
  {
    CanonicalReadsBack(p, r, t, n);
    CanonicalReadsBack(p, r', t', n');
    var a, b := Lines(p, r, t, n), Lines(p, r', t', n');
    assert a == b ==> a[0] == b[0] && a[1] == b[1] && a[2] == b[2] && a[3] == b[3] && a[4] == b[4];
  }

  /** The fields before the body and the body hold no newline. */
  predicate Plain(p: Platform, r: Request, timestamp: string, nonce: string) {
    Clean(p, r, timestamp, nonce) && NEWLINE !in BodyText(r)
  }

  /** The canonical string determines the request, its timestamp and its nonce, among all there are, exactly
      when none of them holds a newline, the body included. */
  lemma UnambiguousIffPlain(p: Platform, r: Request, t: string, n: string)
    requires OneLineMethod(p, r)
    ensures Plain(p, r, t, n) <==>
      forall r', t', n' :: Canonical(p, r', t', n') == Canonical(p, r, t, n) ==>
        SameRequest(p, r, r') && t == t' && n == n'
  {
    if Plain(p, r, t, n) {
      forall r', t', n' | Canonical(p, r', t', n') == Canonical(p, r, t, n)
        ensures SameRequest(p, r, r') && t == t' && n == n'
      {
        PlainIsShared(p, r, t, n, r', t', n');
        CanonicalIsInjective(p, r, t, n, r', t', n');
      }
    } else if Clean(p, r, t, n) {
      var r', t', n' := BodyDouble(p, r, t, n);
      assert Canonical(p, r', t', n') == Canonical(p, r, t, n);
    } else {
      var r', t', n' := CleanDouble(p, r, t, n);
      assert Canonical(p, r', t', n') == Canonical(p, r, t, n);
    }
  }

  /** A request is plain exactly if its canonical string has four newlines, so whatever shares the string
      of a plain request is plain. */
  lemma PlainIsShared(p: Platform, r: Request, t: string, n: string, r': Request, t': string, n': string)
    requires Plain(p, r, t, n) && Canonical(p, r', t', n') == Canonical(p, r, t, n)
    ensures Plain(p, r', t', n')
  {
    PlainHasFour(p, r, t, n);
    PlainHasFour(p, r', t', n');
  }

  lemma PlainHasFour(p: Platform, r: Request, t: string, n: string)
    ensures Plain(p, r, t, n) <==> Newlines(Canonical(p, r, t, n)) == 4
  {
    var lines := Lines(p, r, t, n);
    NewlinesOfJoin(lines);
    NoNewlines(lines);
    assert CleanUpTo(lines, 5) <==> Plain(p, r, t, n) by {
      assert lines[0] == p.upper(r.verb) && lines[1] == r.path && lines[2] == t && lines[3] == n
        && lines[4] == BodyText(r);
    }
  }

  /** A body with a newline: its first line can pass for the nonce, the nonce for the timestamp, and the
      timestamp for the end of the path. */
  lemma BodyDouble(p: Platform, r: Request, t: string, n: string) returns (r': Request, t': string, n': string)
    requires NEWLINE in BodyText(r)
    ensures Canonical(p, r', t', n') == Canonical(p, r, t, n) && !SameRequest(p, r, r')
  {
    var verb, body := p.upper(r.verb), BodyText(r);
    var i := IndexOf(body, NEWLINE);
    var first, rest := body[..i], body[i + 1..];
    SplitAtIndex(body, NEWLINE);
    r', t', n' := Request(r.verb, r.path + ([NEWLINE] + t), Some(rest)), n, first;
    assert BodyText(r) == first + ([NEWLINE] + rest);
    LinesShifted(verb, r.path, t, n, first, rest);
    assert |r'.path| > |r.path|;
  }

  lemma LinesShifted(verb: string, path: string, t: string, n: string, first: string, rest: string)
    ensures Join([verb, path + ([NEWLINE] + t), n, first, rest]) == Join([verb, path, t, n, first + ([NEWLINE] + rest)])
  {
    var body, longer := first + ([NEWLINE] + rest), path + ([NEWLINE] + t);
    MergedFirst(first, rest, []);
    assert [first, rest] + [] == [first, rest] && [body] + [] == [body];
    JoinPrefixed([n], [first, rest], [body]);
    assert [n] + [first, rest] == [n, first, rest] && [n] + [body] == [n, body];
    JoinPrefixed([path, t], [n, first, rest], [n, body]);
    MergedFirst(path, t, [n, first, rest]);
    JoinPrefixed([verb], [longer] + [n, first, rest], [path, t] + [n, body]);
    assert [verb] + ([longer] + [n, first, rest]) == [verb, longer, n, first, rest];
    assert [verb] + ([path, t] + [n, body]) == [verb, path, t, n, body];
  }

  /** Lines in front make no difference. */
  lemma {:induction false} JoinPrefixed(before: seq<string>, s: seq<string>, t: seq<string>)
    requires s != [] && t != [] && Join(s) == Join(t)
    ensures Join(before + s) == Join(before + t)
  {
    if before == [] {
      assert before + s == s && before + t == t;
    } else {
      JoinPrefixed(before[1..], s, t);
      JoinHead(before[0], before[1..] + s);
      JoinHead(before[0], before[1..] + t);
      assert before + s == [before[0]] + (before[1..] + s) && before + t == [before[0]] + (before[1..] + t);
    }
  }

  lemma JoinHead(head: string, tail: seq<string>)
    requires tail != []
    ensures Join([head] + tail) == head + ([NEWLINE] + Join(tail))
  {
    assert ([head] + tail)[1..] == tail;
  }

  /** Two lines in a row join like one line with a newline. */
  lemma MergedFirst(a: string, b: string, after: seq<string>)
    ensures Join([a, b] + after) == Join([a + ([NEWLINE] + b)] + after)
  {
    assert [a, b] + after == [a] + ([b] + after);
    JoinHead(a, [b] + after);
    if after == [] {
      assert [b] + after == [b];
    } else {
      JoinHead(b, after);
      JoinHead(a + ([NEWLINE] + b), after);
      Regroup(a, b, Join(after));
    }
  }

  lemma Regroup(a: string, b: string, c: string)
    ensures a + ([NEWLINE] + (b + ([NEWLINE] + c))) == (a + ([NEWLINE] + b)) + ([NEWLINE] + c)
  {
  }

  /** The clean request that a verifier reads off the canonical string. */
  lemma CleanDouble(p: Platform, r: Request, t: string, n: string) returns (r': Request, t': string, n': string)
    requires OneLineMethod(p, r)
    ensures Clean(p, r', t', n') && Canonical(p, r', t', n') == Canonical(p, r, t, n)
    ensures !Clean(p, r, t, n) ==> !(SameRequest(p, r, r') && t == t' && n == n')
  {
    var verb, rest := p.upper(r.verb), [r.path, t, n, BodyText(r)];
    var cut := CutAgain(rest);
    r', t', n' := Request(r.verb, cut[0], Some(cut[3])), cut[1], cut[2];
    assert Lines(p, r, t, n) == [verb] + rest && Lines(p, r', t', n') == [verb] + cut;
    assert ([verb] + rest)[1..] == rest && ([verb] + cut)[1..] == cut;
  }

  /** Lines that may contain newlines join to the same text as as many lines that do not, but for the
      last one. */
  lemma CutAgain(lines: seq<string>) returns (cut: seq<string>)
    requires lines != []
    ensures |cut| == |lines| && Join(cut) == Join(lines) && CleanUpTo(cut, |cut| - 1)
  {
    var s, n := Join(lines), |lines| - 1;
    NewlinesOfJoin(lines);
    CutSucceedsIff(s, n);
    CutLinesJoin(s, n);
    cut := CutLines(s, n).value;
    IsJoinMeans(s, cut);
  }

  // ----- What a signature pins down -----

  /** What stands between path and body. */
  function Separator(t: string, n: string): string { [NEWLINE] + (t + ([NEWLINE] + (n + [NEWLINE]))) }

  /** The canonical string after the method. */
  function AfterMethod(r: Request, t: string, n: string): string { r.path + (Separator(t, n) + BodyText(r)) }

  predicate OccursAt(s: string, part: string, k: nat) { k + |part| <= |s| && s[k..k + |part|] == part }

  /** The separator occurs once only: neither path nor body, nor both across their border, repeat it. */
  ghost predicate Separated(r: Request, t: string, n: string) {
    forall k: nat :: OccursAt(AfterMethod(r, t, n), Separator(t, n), k) ==> k == |r.path|
  }

  /** For one timestamp and one nonce, the canonical string determines method, path and body exactly when
      newline, timestamp, newline, nonce, newline occurs only where it separates path and body. */
  lemma PinnedIffSeparated(p: Platform, r: Request, t: string, n: string)
    requires OneLineMethod(p, r)
    ensures Separated(r, t, n) <==>
      forall r': Request :: OneLineMethod(p, r') && Canonical(p, r', t, n) == Canonical(p, r, t, n) ==>
        SameRequest(p, r, r')
  {
    if Separated(r, t, n) {
      forall r': Request | OneLineMethod(p, r') && Canonical(p, r', t, n) == Canonical(p, r, t, n)
        ensures SameRequest(p, r, r')
      {
        SeparatedIsPinned(p, r, t, n, r');
      }
    }
    if forall r': Request :: OneLineMethod(p, r') && Canonical(p, r', t, n) == Canonical(p, r, t, n) ==>
      SameRequest(p, r, r') {
      forall k: nat | OccursAt(AfterMethod(r, t, n), Separator(t, n), k) ensures k == |r.path| {
        var r' := SeparatedAt(p, r, t, n, k);
        assert SameRequest(p, r, r');
      }
    }
  }

  lemma CanonicalAfterMethod(p: Platform, r: Request, t: string, n: string)
    ensures Canonical(p, r, t, n) == p.upper(r.verb) + ([NEWLINE] + AfterMethod(r, t, n))
  {
    var body := BodyText(r);
    assert Lines(p, r, t, n) == [p.upper(r.verb)] + ([r.path] + ([t] + ([n] + [body])));
    JoinHead(p.upper(r.verb), [r.path] + ([t] + ([n] + [body])));
    JoinHead(r.path, [t] + ([n] + [body]));
    JoinHead(t, [n] + [body]);
    JoinHead(n, [body]);
    SeparatorThen(t, n, body);
  }

  lemma SeparatorThen(t: string, n: string, body: string)
    ensures Separator(t, n) + body == [NEWLINE] + (t + ([NEWLINE] + (n + ([NEWLINE] + body))))
  {
    assert (n + [NEWLINE]) + body == n + ([NEWLINE] + body);
    Prepended(n + [NEWLINE], body);
    Prepended(t + ([NEWLINE] + (n + [NEWLINE])), body);
    assert (t + ([NEWLINE] + (n + [NEWLINE]))) + body == t + (([NEWLINE] + (n + [NEWLINE])) + body);
  }

  lemma Prepended(s: string, body: string)
    ensures ([NEWLINE] + s) + body == [NEWLINE] + (s + body)
  {
  }

  lemma SeparatedIsPinned(p: Platform, r: Request, t: string, n: string, r': Request)
    requires Separated(r, t, n) && OneLineMethod(p, r) && OneLineMethod(p, r')
    requires Canonical(p, r', t, n) == Canonical(p, r, t, n)
    ensures SameRequest(p, r, r')
  {
    var s, verb, verb' := Canonical(p, r, t, n), p.upper(r.verb), p.upper(r'.verb);
    var text, text' := AfterMethod(r, t, n), AfterMethod(r', t, n);
    CanonicalAfterMethod(p, r, t, n);
    CanonicalAfterMethod(p, r', t, n);
    CutFirstLine(s, verb, text);
    CutFirstLine(s, verb', text');
    assert verb == verb' && text == text';
    Around(r.path, Separator(t, n), BodyText(r));
    Around(r'.path, Separator(t, n), BodyText(r'));
    assert OccursAt(text, Separator(t, n), |r'.path|);
  }

  lemma CutFirstLine(s: string, line: string, rest: string)
    requires s == line + ([NEWLINE] + rest) && NEWLINE !in line
    ensures IndexOf(s, NEWLINE) == |line| < |s| && line == s[..IndexOf(s, NEWLINE)]
      && rest == s[IndexOf(s, NEWLINE) + 1..]
  {
    Glued(s, line, NEWLINE, rest);
    IndexIs(s, line, NEWLINE);
  }

  lemma Around(a: string, part: string, b: string)
    ensures var s := a + (part + b);
      OccursAt(s, part, |a|) && s[..|a|] == a && s[|a| + |part|..] == b
  {
  }

  lemma Split(s: string, part: string, k: nat)
    requires OccursAt(s, part, k)
    ensures s == s[..k] + (part + s[k + |part|..])
  {
  }

  /** Wherever the separator occurs, another request can be read. */
  lemma SeparatedAt(p: Platform, r: Request, t: string, n: string, k: nat) returns (r': Request)
    requires OccursAt(AfterMethod(r, t, n), Separator(t, n), k)
    ensures Canonical(p, r', t, n) == Canonical(p, r, t, n) && r'.verb == r.verb && |r'.path| == k
  {
    var text, part := AfterMethod(r, t, n), Separator(t, n);
    r' := Request(r.verb, text[..k], Some(text[k + |part|..]));
    Split(text, part, k);
    CanonicalAfterMethod(p, r, t, n);
    CanonicalAfterMethod(p, r', t, n);
  }

  // ----- Signing and verifying -----

  const ALGORITHM := "HMAC-SHA256"

  datatype ConfigError = EmptyKeyId | EmptySecret

  function Signature(p: Platform, secret: string, message: string): string {
    Base64.Encode(p.hmac(secret, message), true)
  }

  /** `signFacilitatorRequest` at time `now` in milliseconds. */
  function Sign(p: Platform, keyId: string, secret: string, r: Request, now: int,
                nonce: string): Result<Headers, ConfigError> {
    if TokenAmounts.Trim(keyId) == "" then Failure(EmptyKeyId)
    else if secret == "" then Failure(EmptySecret)
    else
      var timestamp := SignedDecimal(now / 1000);
      Success(Headers(keyId, timestamp, nonce,
                      ALGORITHM + (" " + Signature(p, secret, Canonical(p, r, timestamp, nonce)))))
  }

  /** Signing refuses a blank key id and an empty secret, and nothing else.  The headers name the key and the
      nonce as given and the time in whole seconds, and carry algorithm and digest. */
  lemma SignMeans(p: Platform, keyId: string, secret: string, r: Request, now: int, nonce: string)
    ensures var blank := forall c <- keyId :: TokenAmounts.IsSpace(c);
      match Sign(p, keyId, secret, r, now, nonce)
      case Failure(EmptyKeyId) => blank
      case Failure(EmptySecret) => !blank && secret == ""
      case Success(Headers(id, timestamp, n, signature)) =>
        && !blank && secret != "" && id == keyId && n == nonce
        && (exists seconds: int :: 1000 * seconds <= now < 1000 * (seconds + 1) && timestamp == SignedDecimal(seconds))
        && signature == "HMAC-SHA256 " + Base64.Encode(p.hmac(secret, Canonical(p, r, timestamp, nonce)), true)
  {
    TokenAmounts.TrimIsEmptyIff(keyId);
    if Sign(p, keyId, secret, r, now, nonce).Success? {
      var seconds := now / 1000;
      assert 1000 * seconds <= now < 1000 * (seconds + 1);
      var digest := Base64.Encode(p.hmac(secret, Canonical(p, r, SignedDecimal(seconds), nonce)), true);
      assert ALGORITHM + (" " + digest) == "HMAC-SHA256 " + digest;
    }
  }

  /** The text before the first space. */
  function Word(s: string): string { s[..IndexOf(s, ' ')] }

  /** The second element of `signature.split(" ", 2)`; what follows a second space is dropped. */
  function Provided(signature: string): string {
    var i := IndexOf(signature, ' ');
    if i == |signature| then "" else Word(signature[i + 1..])
  }

  predicate Fresh(p: Platform, timestamp: string, tolerance: int, now: int) {
    var seconds := p.number(timestamp);
    seconds.Some? && -(tolerance as real) <= (now / 1000) as real - seconds.value <= tolerance as real
  }

  /** What `verifyFacilitatorRequest` decides. */
  predicate Verify(p: Platform, secret: string, h: Headers, r: Request, tolerance: int, now: int) {
    && Word(h.signature) == ALGORITHM && Provided(h.signature) != ""
    && Fresh(p, h.timestamp, tolerance, now)
    && Signature(p, secret, Canonical(p, r, h.timestamp, h.nonce)) == Provided(h.signature)
  }

  /** `a ^ b` and `a | b` on character codes, bit by bit. */
  function Xor(a: nat, b: nat): nat {
    if a == 0 && b == 0 then 0 else 2 * Xor(a / 2, b / 2) + if a % 2 == b % 2 then 0 else 1
  }

  function Or(a: nat, b: nat): nat {
    if a == 0 && b == 0 then 0 else 2 * Or(a / 2, b / 2) + if a % 2 == 0 && b % 2 == 0 then 0 else 1
  }

  lemma BitByBit(a: nat, b: nat)
    ensures Xor(a, b) % 2 == (a + b) % 2 && Xor(a, b) / 2 == Xor(a / 2, b / 2)
    ensures Or(a, b) % 2 == (if a % 2 == b % 2 == 0 then 0 else 1) && Or(a, b) / 2 == Or(a / 2, b / 2)
  {
  }

  lemma {:induction false} XorIsZeroIfEqual(a: nat, b: nat)
    ensures Xor(a, b) == 0 <==> a == b
  {
    if a > 0 || b > 0 {
      XorIsZeroIfEqual(a / 2, b / 2);
    }
  }

  lemma {:induction false} OrIsZeroIfBoth(a: nat, b: nat)
    ensures Or(a, b) == 0 <==> a == 0 && b == 0
  {
    if a > 0 || b > 0 {
      OrIsZeroIfBoth(a / 2, b / 2);
    }
  }

  /** The accumulating comparison answers equality. */
  method TimingSafeEqual(a: string, b: string) returns (equal: bool)
    ensures equal <==> a == b
  {
    if |a| != |b| {
      return false;
    }
    var diff: nat := 0;
    for i := 0 to |a|
      invariant diff == 0 <==> a[..i] == b[..i]
    {
      var x, y := a[i] as int, b[i] as int;
      XorIsZeroIfEqual(x, y);
      OrIsZeroIfBoth(diff, Xor(x, y));
      diff := Or(diff, Xor(x, y));
      assert a[..i + 1] == a[..i] + [a[i]] && b[..i + 1] == b[..i] + [b[i]];
      assert a[..i + 1] == b[..i + 1] ==> a[i] == b[i] && a[..i] == b[..i] by {
        assert a[..i + 1][i] == a[i] && b[..i + 1][i] == b[i];
        assert a[..i + 1][..i] == a[..i] && b[..i + 1][..i] == b[..i];
      }
    }
    assert a[..|a|] == a && b[..|a|] == b;
    return diff == 0;
  }

  /** `verifyFacilitatorRequest`. */
  method VerifyRequest(p: Platform, secret: string, h: Headers, r: Request, tolerance: int, now: int) returns (ok: bool)
    ensures ok == Verify(p, secret, h, r, tolerance, now)
  {
    if Word(h.signature) != ALGORITHM || Provided(h.signature) == "" {
      return false;
    }
    if !Fresh(p, h.timestamp, tolerance, now) {
      return false;
    }
    ok := TimingSafeEqual(Signature(p, secret, Canonical(p, r, h.timestamp, h.nonce)), Provided(h.signature));
  }

  // ----- What verification means -----

  lemma {:induction false} EncodedIsOneWord(bytes: seq<Base64.Byte>, padded: bool)
    ensures ' ' !in Base64.Encode(bytes, padded)
    ensures bytes != [] ==> Base64.Encode(bytes, padded) != ""
  {
    if |bytes| > 2 {
      EncodedIsOneWord(bytes[3..], padded);
    }
  }

  lemma WordOfJoined(w: string, t: string)
    requires ' ' !in w
    ensures Word(w + (" " + t)) == w && Provided(w + (" " + t)) == Word(t) && Word(w) == w
  {
    Glued(w + (" " + t), w, ' ', t);
    IndexIs(w + (" " + t), w, ' ');
    assert w[..|w|] == w;
  }

  /** The signatures accepted: the one signed, alone or followed by a space and anything. */
  lemma SplitSignature(signature: string, expected: string)
    requires expected != "" && ' ' !in expected
    ensures Word(signature) == ALGORITHM && Provided(signature) == expected
       <==> signature == ALGORITHM + (" " + expected) || ALGORITHM + (" " + (expected + " ")) <= signature
  {
    if Word(signature) == ALGORITHM && Provided(signature) == expected {
      SignatureShape(signature, expected);
    }
    WordsOfSignature(expected, "");
    if ALGORITHM + (" " + (expected + " ")) <= signature {
      var extra := signature[|ALGORITHM| + 1 + |expected| + 1..];
      WithExtra(signature, expected, extra);
      WordsOfSignature(expected, extra);
    }
  }

  lemma WordsOfSignature(expected: string, extra: string)
    requires ' ' !in expected
    ensures var plain, extended := ALGORITHM + (" " + expected), ALGORITHM + (" " + (expected + (" " + extra)));
      && Word(plain) == ALGORITHM && Provided(plain) == expected
      && Word(extended) == ALGORITHM && Provided(extended) == expected
  {
    WordOfJoined(ALGORITHM, expected);
    WordOfJoined(ALGORITHM, expected + (" " + extra));
    WordOfJoined(expected, extra);
  }

  lemma SignatureShape(signature: string, expected: string)
    requires expected != "" && Word(signature) == ALGORITHM && Provided(signature) == expected
    ensures signature == ALGORITHM + (" " + expected) || ALGORITHM + (" " + (expected + " ")) <= signature
  {
    var rest := signature[IndexOf(signature, ' ') + 1..];
    SplitAtIndex(signature, ' ');
    if IndexOf(rest, ' ') < |rest| {
      SplitAtIndex(rest, ' ');
      WithExtra(signature, expected, rest[IndexOf(rest, ' ') + 1..]);
    } else {
      assert rest[..|rest|] == rest;
    }
  }

  lemma WithExtra(signature: string, expected: string, extra: string)
    ensures var start := ALGORITHM + (" " + (expected + " "));
      && (signature == ALGORITHM + (" " + (expected + (" " + extra))) ==> start <= signature)
      && (start <= signature && extra == signature[|start|..] ==>
            signature == ALGORITHM + (" " + (expected + (" " + extra))))
  {
    var start := ALGORITHM + (" " + (expected + " "));
    assert start + extra == ALGORITHM + (" " + (expected + (" " + extra)));
  }

  /** Verification succeeds exactly when the timestamp is fresh and the signature header carries the
      digest of the canonical string. */
  lemma VerifyMeans(p: Platform, secret: string, h: Headers, r: Request, tolerance: int, now: int)
    requires Lawful(p)
    ensures var expected := Signature(p, secret, Canonical(p, r, h.timestamp, h.nonce));
      Verify(p, secret, h, r, tolerance, now) <==>
        && Fresh(p, h.timestamp, tolerance, now)
        && (h.signature == ALGORITHM + (" " + expected) || ALGORITHM + (" " + (expected + " ")) <= h.signature)
  {
    var message := Canonical(p, r, h.timestamp, h.nonce);
    assert p.hmac(secret, message) != [];
    EncodedIsOneWord(p.hmac(secret, message), true);
    SplitSignature(h.signature, Signature(p, secret, message));
  }

  lemma DigestsFromSignatures(p: Platform, secret: string, m: string, m': string)
    ensures Signature(p, secret, m) == Signature(p, secret, m') <==> p.hmac(secret, m) == p.hmac(secret, m')
  {
    Base64.DecodeOfEncode(p.hmac(secret, m), true);
    Base64.DecodeOfEncode(p.hmac(secret, m'), true);
  }

  lemma FreshOfSigned(p: Platform, now: int, tolerance: int, later: int)
    requires Lawful(p)
    ensures Fresh(p, SignedDecimal(now / 1000), tolerance, later)
         <==> -tolerance <= later / 1000 - now / 1000 <= tolerance
  {
    var a, b := now / 1000, later / 1000;
    assert p.number(SignedDecimal(a)) == Some(a as real);
  }

  lemma VerifyOfSigned(p: Platform, secret: string, h: Headers, m: string, r': Request, tolerance: int, later: int)
    requires Lawful(p) && h.signature == ALGORITHM + (" " + Signature(p, secret, m))
    ensures Verify(p, secret, h, r', tolerance, later)
       <==> Fresh(p, h.timestamp, tolerance, later)
            && p.hmac(secret, m) == p.hmac(secret, Canonical(p, r', h.timestamp, h.nonce))
  {
    assert p.hmac(secret, m) != [];
    EncodedIsOneWord(p.hmac(secret, m), true);
    WordOfJoined(ALGORITHM, Signature(p, secret, m));
    WordOfJoined(Signature(p, secret, m), "");
    DigestsFromSignatures(p, secret, m, Canonical(p, r', h.timestamp, h.nonce));
  }

  /** A signed request, presented with request `r'`, verifies exactly when the clocks are within the
      tolerance and the digests of the two canonical strings coincide.  The strings coincide for the request
      signed, whatever the case of its method, and for no other if the separator occurs only once. */
  lemma SignedRequestVerifies(p: Platform, keyId: string, secret: string, r: Request, now: int, nonce: string,
                              r': Request, tolerance: int, later: int)
    requires Lawful(p) && Sign(p, keyId, secret, r, now, nonce).Success?
    ensures var h := Sign(p, keyId, secret, r, now, nonce).value;
      var m, m' := Canonical(p, r, h.timestamp, nonce), Canonical(p, r', h.timestamp, nonce);
      && (Verify(p, secret, h, r', tolerance, later)
          <==> -tolerance <= later / 1000 - now / 1000 <= tolerance && p.hmac(secret, m) == p.hmac(secret, m'))
      && (SameRequest(p, r, r') ==> m == m')
      && (Separated(r, h.timestamp, nonce) && OneLineMethod(p, r) && OneLineMethod(p, r') && m == m'
          ==> SameRequest(p, r, r'))
  {
    var h := Sign(p, keyId, secret, r, now, nonce).value;
    VerifyOfSigned(p, secret, h, Canonical(p, r, h.timestamp, nonce), r', tolerance, later);
    FreshOfSigned(p, now, tolerance, later);
    if OneLineMethod(p, r) {
      PinnedIffSeparated(p, r, h.timestamp, nonce);
    }
  }

  /** So, collisions of the hash apart, the signature headers verify for no other request exactly when the
      separator occurs only once in the request signed. */
  lemma SignatureBindsIffSeparated(p: Platform, keyId: string, secret: string, r: Request, now: int, nonce: string,
                                   tolerance: int)
    requires Lawful(p) && Sign(p, keyId, secret, r, now, nonce).Success? && OneLineMethod(p, r) && tolerance >= 0
    requires var h := Sign(p, keyId, secret, r, now, nonce).value;
      forall m :: p.hmac(secret, m) == p.hmac(secret, Canonical(p, r, h.timestamp, nonce)) ==>
        m == Canonical(p, r, h.timestamp, nonce)
    ensures var h := Sign(p, keyId, secret, r, now, nonce).value;
      Separated(r, h.timestamp, nonce) <==>
        forall r': Request, later: int :: OneLineMethod(p, r') && Verify(p, secret, h, r', tolerance, later) ==>
          SameRequest(p, r, r')
  {
    var h := Sign(p, keyId, secret, r, now, nonce).value;
    var m := Canonical(p, r, h.timestamp, nonce);
    forall r', later
      ensures Verify(p, secret, h, r', tolerance, later) <==>
        -tolerance <= later / 1000 - now / 1000 <= tolerance && Canonical(p, r', h.timestamp, nonce) == m
    {
      SignedRequestVerifies(p, keyId, secret, r, now, nonce, r', tolerance, later);
    }
    PinnedIffSeparated(p, r, h.timestamp, nonce);
    if forall r': Request, later: int :: OneLineMethod(p, r') && Verify(p, secret, h, r', tolerance, later) ==>
      SameRequest(p, r, r') {
      forall r': Request | OneLineMethod(p, r') && Canonical(p, r', h.timestamp, nonce) == m
        ensures SameRequest(p, r, r')
      {
        assert Verify(p, secret, h, r', tolerance, now);
      }
    }
  }

  // ----- The replay window -----

  const MAX_SKEW_SECONDS := 300

  /** A verification that came to its end, in whatever order the awaits let them. */
  datatype Attempt = Attempt(nonce: string, verified: bool)

  /** `verifyWithReplayWindow`, split at its await: the look-up and the insertion are one step. */
  class ReplayWindow {
    var seenNonces: set<string>
    ghost var attempts: seq<Attempt>

    ghost predicate Valid()
      reads this
    {
      seenNonces == Seen(attempts)
    }

    constructor ()
      ensures Valid() && attempts == []
    {
      seenNonces, attempts := {}, [];
    }

    method Finish(p: Platform, secret: string, h: Headers, r: Request, now: int) returns (accepted: bool)
      requires Valid()
      modifies this
      ensures Valid()
      ensures attempts == old(attempts) + [Attempt(h.nonce, Verify(p, secret, h, r, 300, now))]
      ensures accepted == Accepted(attempts, |attempts| - 1)
    {
      var ok := VerifyRequest(p, secret, h, r, MAX_SKEW_SECONDS, now);
      SeenAppend(attempts, Attempt(h.nonce, ok));
      attempts := attempts + [Attempt(h.nonce, ok)];
      assert attempts[..|attempts| - 1] == old(attempts);
      if !ok {
        return false;
      }
      if h.nonce in seenNonces {
        return false;
      }
      seenNonces := seenNonces + {h.nonce};
      return true;
    }
  }

  function Seen(attempts: seq<Attempt>): set<string> {
    set i | 0 <= i < |attempts| && attempts[i].verified :: attempts[i].nonce
  }

  predicate Accepted(attempts: seq<Attempt>, i: nat)
    requires i < |attempts|
  {
    attempts[i].verified && attempts[i].nonce !in Seen(attempts[..i])
  }

  lemma SeenAppend(attempts: seq<Attempt>, a: Attempt)
    ensures Seen(attempts + [a]) == Seen(attempts) + if a.verified then {a.nonce} else {}
  {
    var more := attempts + [a];
    assert more[|attempts|] == a;
    forall nonce ensures nonce in Seen(more) <==> nonce in Seen(attempts) || (a.verified && a.nonce == nonce) {
      if nonce in Seen(attempts) {
        var i :| 0 <= i < |attempts| && attempts[i].verified && attempts[i].nonce == nonce;
        assert more[i] == attempts[i];
      }
    }
  }

  function TimesAccepted(attempts: seq<Attempt>, nonce: string): nat {
    if attempts == [] then 0
    else
      var n := |attempts| - 1;
      TimesAccepted(attempts[..n], nonce) + if attempts[n].nonce == nonce && Accepted(attempts, n) then 1 else 0
  }

  /** In every order of completion, a nonce is accepted once if any request with it verifies, and
      never otherwise. */
  lemma {:induction false} NonceAcceptedOnce(attempts: seq<Attempt>, nonce: string)
    ensures TimesAccepted(attempts, nonce) == if nonce in Seen(attempts) then 1 else 0
  {
    if attempts != [] {
      var front, last := attempts[..|attempts| - 1], attempts[|attempts| - 1];
      NonceAcceptedOnce(front, nonce);
      SeenAppend(front, last);
      assert attempts == front + [last];
    }
  }
}
