/**
 The Windows command line: the quoter that turns an argument list into one string, and
 the splitting rules it inverts. `doubled` selects the runtimes that read two quotes inside
 a quoted part as one literal quote; the quoter is right for both kinds.
 */
module CmdLine {

  const BS: char := '\\'
  const QUOTE: char := '"'
  const VT: char := '\U{0B}'

  predicate Special(c: char) {
    c == ' ' || c == '\t' || c == '\n' || c == VT || c == QUOTE
  }

  predicate Blank(c: char) {
    c == ' ' || c == '\t'
  }

  predicate NeedsQuotes(a: string) {
    a == "" || exists i :: 0 <= i < |a| && Special(a[i])
  }

  function Slashes(n: nat): (s: string)
    ensures |s| == n && forall i :: 0 <= i < n ==> s[i] == BS
  {
    seq(n, _ => BS)
  }

  /** Number of backslashes at the front. */
  function Lead(s: string): (n: nat)
    ensures n <= |s| && (n < |s| ==> s[n] != BS) && forall i :: 0 <= i < n ==> s[i] == BS
  {
    if s == "" || s[0] != BS then 0 else 1 + Lead(s[1..])
  }

  /** The text between the quotes: a run of backslashes doubles before a quote or the end. */
  function Escaped(a: string): string
    decreases |a|
  {
    var n := Lead(a);
    if n == |a| then Slashes(2 * n)
    else if a[n] == QUOTE then Slashes(2 * n + 1) + [QUOTE] + Escaped(a[n + 1..])
    else Slashes(n) + [a[n]] + Escaped(a[n + 1..])
  }

  function Quoted(a: string): string {
    if NeedsQuotes(a) then [QUOTE] + Escaped(a) + [QUOTE] else a
  }

  function Joined(argv: seq<string>): string {
    if argv == [] then ""
    else if |argv| == 1 then Quoted(argv[0])
    else Joined(argv[..|argv| - 1]) + " " + Quoted(argv[|argv| - 1])
  }

  /** An argument is written as it is exactly when it is not empty and holds no blank, tab, line feed, vertical tab or quote. */
  lemma PlainUntouched(a: string)
    ensures Quoted(a) == a <==> a != "" && forall i :: 0 <= i < |a| ==> a[i] !in {' ', '\t', '\n', 11 as char, '"'}
    ensures Quoted(a) != a ==> |Quoted(a)| >= 2 && Quoted(a)[0] == '"' && Quoted(a)[|Quoted(a)| - 1] == '"'
  {
    if NeedsQuotes(a) { EscapedLonger(a); }
  }

  lemma {:induction false} EscapedLonger(a: string)
    ensures |Escaped(a)| >= |a|
    decreases |a|
  {
    if Lead(a) < |a| { EscapedLonger(a[Lead(a) + 1..]); }
  }

  // ------------------------------------------------------------------ the quoter

  /** Builds the command line, one argument after another. */
  method BuildCmdline(argv: seq<string>) returns (buf: string)
    ensures buf == Joined(argv)
  {
    buf := "";
    assert argv[..0] == [];
    for i := 0 to |argv|
      invariant buf == Joined(argv[..i])
    {
      var a := argv[i];
      hide Joined, Quoted;
      if i > 0 { buf := buf + " "; }
      buf := PushArg(buf, a);
      JoinedStep(argv, i);
    }
    assert argv[..|argv|] == argv;
  }

  /** Appends one argument, quoted when it is empty or holds a special character. */
  method PushArg(before: string, a: string) returns (buf: string)
    ensures buf == before + Quoted(a)
  {
    var needq := a == "";
    var p := 0;
    while p < |a| && !needq
      invariant 0 <= p <= |a|
      invariant needq <==> a == "" || exists k :: 0 <= k < p && Special(a[k])
    {
      if Special(a[p]) { needq := true; }
      p := p + 1;
    }
    hide Escaped;
    if needq {
      buf := PushEscaped(before + [QUOTE], a);
      buf := buf + [QUOTE];
    } else {
      buf := before + a;
    }
  }

  lemma JoinedStep(argv: seq<string>, i: nat)
    requires i < |argv|
    ensures Joined(argv[..i + 1]) == (if i > 0 then Joined(argv[..i]) + " " else Joined(argv[..i])) + Quoted(argv[i])
  {
    assert argv[..i + 1][..i] == argv[..i];
  }

  /** The escaping loop: counts a run of backslashes, then decides what it turns into. */
  method PushEscaped(before: string, a: string) returns (buf: string)
    ensures buf == before + Escaped(a)
  {
    hide Escaped, Lead, Slashes;
    buf := before;
    var p := 0;
    assert a[0..] == a;
    var more := true;
    while more
      invariant 0 <= p <= |a| && (more ==> buf + Escaped(a[p..]) == before + Escaped(a))
      invariant !more ==> buf == before + Escaped(a)
      decreases more, |a| - p
    {
      buf, p, more := PushRun(buf, a, p);
    }
  }

  /** One run of backslashes and the character after it, or the final run. */
  method PushRun(before: string, a: string, p: nat) returns (buf: string, p': nat, more: bool)
    requires p <= |a|
    ensures p' <= |a| && (more ==> p < p' && buf + Escaped(a[p'..]) == before + Escaped(a[p..]))
    ensures !more ==> buf == before + Escaped(a[p..])
  {
    hide Escaped, Lead, Slashes;
    var slashes := CountSlashes(a, p);
    p' := p + slashes;
    if p' == |a| {
      EscapedEnd(a[p..]);
      return before + Slashes(slashes * 2), p', false;
    }
    assert a[p'] == a[p..][slashes] && a[p' + 1..] == a[p..][slashes + 1..];
    EscapedStep(a[p..], slashes, before);
    buf := before + Slashes(if a[p'] == QUOTE then slashes * 2 + 1 else slashes);
    buf := buf + [a[p']];
    p', more := p' + 1, true;
  }

  method CountSlashes(a: string, p: nat) returns (n: nat)
    requires p <= |a|
    ensures p + n <= |a| && n == Lead(a[p..])
  {
    n := 0;
    while p + n < |a| && a[p + n] == BS
      invariant p + n <= |a| && forall i :: p <= i < p + n ==> a[i] == BS
    {
      n := n + 1;
    }
    LeadIs(a[p..], n);
  }

  lemma LeadIs(s: string, n: nat)
    requires n <= |s| && (n < |s| ==> s[n] != BS) && forall i :: 0 <= i < n ==> s[i] == BS
    ensures Lead(s) == n
  {
    hide Lead;
  }

  lemma EscapedEnd(s: string)
    requires Lead(s) == |s|
    ensures Escaped(s) == Slashes(2 * |s|)
  {
  }

  /** How a run of n backslashes before another character is written. */
  function Run(n: nat, c: char): string {
    Slashes(if c == QUOTE then 2 * n + 1 else n) + [c]
  }

  lemma EscapedUnfold(s: string, n: nat)
    requires n < |s| && Lead(s) == n
    ensures Escaped(s) == Run(n, s[n]) + Escaped(s[n + 1..])
  {
    hide Lead, Slashes;
  }

  lemma Assoc(a: string, b: string, c: string)
    ensures a + b + c == a + (b + c)
  {
  }

  lemma EscapedStep(s: string, n: nat, before: string)
    requires n < |s| && Lead(s) == n
    ensures before + Slashes(if s[n] == QUOTE then 2 * n + 1 else n) + [s[n]] + Escaped(s[n + 1..]) == before + Escaped(s)
  {
    EscapedUnfold(s, n);
    hide Lead, Slashes, Escaped;
    Assoc(before, Slashes(if s[n] == QUOTE then 2 * n + 1 else n), [s[n]]);
    Assoc(before, Run(n, s[n]), Escaped(s[n + 1..]));
  }

  // --------------------------------------------------------------- the splitter

  /** Reads one argument: its text and what follows it. `q`: inside quotes. */
  function One(s: string, q: bool, doubled: bool): (r: (string, string))
    ensures |r.1| <= |s|
    ensures s != "" && (q || !Blank(s[0])) ==> |r.1| < |s|
    decreases |s|
  {
    var n := Lead(s);
    if n == |s| then (Slashes(n), "")
    else if s[n] == QUOTE then
      if n % 2 == 1 then Then(Slashes(n / 2) + [QUOTE], One(s[n + 1..], q, doubled))
      else if q && doubled && n + 1 < |s| && s[n + 1] == QUOTE then Then(Slashes(n / 2) + [QUOTE], One(s[n + 2..], q, doubled))
      else Then(Slashes(n / 2), One(s[n + 1..], !q, doubled))
    else if !q && Blank(s[n]) then (Slashes(n), s[n..])
    else Then(Slashes(n) + [s[n]], One(s[n + 1..], q, doubled))
  }

  function Then(front: string, r: (string, string)): (string, string) {
    (front + r.0, r.1)
  }

  function SkipBlanks(s: string): (r: string)
    ensures |r| <= |s| && (r != "" ==> !Blank(r[0]))
  {
    if s != "" && Blank(s[0]) then SkipBlanks(s[1..]) else s
  }

  function Split(s: string, doubled: bool): seq<string>
    decreases |s|
  {
    var t := SkipBlanks(s);
    if t == "" then []
    else var (a, rest) := One(t, false, doubled); [a] + Split(rest, doubled)
  }

  // -------------------------------------------------------------- the round trip

  /** What may follow an argument. */
  predicate Tail(t: string) {
    t == "" || t[0] == ' '
  }

  lemma LeadOf(n: nat, c: char, t: string)
    requires c != BS
    ensures Lead(Slashes(n) + [c] + t) == n
    ensures (Slashes(n) + [c] + t)[n] == c && (Slashes(n) + [c] + t)[n + 1..] == t
  {
    LeadIs(Slashes(n) + [c] + t, n);
  }

  /** One round of reading: a run of n backslashes and the character after it. */
  lemma OneStep(n: nat, c: char, t: string, q: bool, doubled: bool)
    requires c != BS
    ensures One(Slashes(n) + [c] + t, q, doubled) ==
      if c == QUOTE then
        if n % 2 == 1 then Then(Slashes(n / 2) + [QUOTE], One(t, q, doubled))
        else if q && doubled && t != "" && t[0] == QUOTE then Then(Slashes(n / 2) + [QUOTE], One(t[1..], q, doubled))
        else Then(Slashes(n / 2), One(t, !q, doubled))
      else if !q && Blank(c) then (Slashes(n), [c] + t)
      else Then(Slashes(n) + [c], One(t, q, doubled))
  {
    LeadOf(n, c, t);
    hide Lead;
    var s := Slashes(n) + [c] + t;
    assert s[n..] == [c] + t;
    assert t != "" ==> s[n + 1] == t[0] && s[n + 2..] == t[1..];
  }

  lemma SplitRun(a: string, n: nat)
    requires Lead(a) == n <= |a|
    ensures n == |a| ==> a == Slashes(n)
    ensures n < |a| ==> a == Slashes(n) + [a[n]] + a[n + 1..] && a[n] != BS
  {
    hide Lead;
    assert a[..n] == Slashes(n);
    hide Slashes;
    assert n == |a| ==> a == a[..n];
    if n < |a| { CutAt(a, n); }
  }

  lemma CutAt(a: string, n: nat)
    requires n < |a|
    ensures a == a[..n] + [a[n]] + a[n + 1..]
  {
  }

  /** A run written for n backslashes and a character is read back as those. */
  lemma RunRead(n: nat, c: char, t: string, doubled: bool)
    requires c != BS
    ensures One(Run(n, c) + t, true, doubled) == Then(Slashes(n) + [c], One(t, true, doubled))
  {
    hide One, Slashes;
    OneStep(if c == QUOTE then 2 * n + 1 else n, c, t, true, doubled);
  }

  /** An even run before the closing quote is read back halved. */
  lemma EndRead(n: nat, t: string, doubled: bool)
    requires Tail(t)
    ensures One(Slashes(2 * n) + [QUOTE] + t, true, doubled) == (Slashes(n), t)
  {
    hide One, Slashes;
    OneStep(2 * n, QUOTE, t, true, doubled);
    Closed(t, doubled);
    assert Slashes(n) + "" == Slashes(n);
  }

  /** Reading an escaped text up to its closing quote gives the text back. */
  lemma {:induction false} EscapedRoundTrip(a: string, t: string, doubled: bool)
    requires Tail(t)
    ensures One(Escaped(a) + [QUOTE] + t, true, doubled) == (a, t)
    decreases |a|
  {
    hide Lead, Slashes, Escaped, One, Run;
    var n := Lead(a);
    SplitRun(a, n);
    if n == |a| {
      EscapedEnd(a);
      EndRead(n, t, doubled);
    } else {
      EscapedUnfold(a, n);
      var e := Escaped(a[n + 1..]);
      EscapedRoundTrip(a[n + 1..], t, doubled);
      RunRead(n, a[n], e + [QUOTE] + t, doubled);
      Assoc3(Run(n, a[n]), e, [QUOTE], t);
    }
  }

  lemma Assoc3(a: string, b: string, c: string, d: string)
    ensures a + b + c + d == a + (b + c + d)
  {
  }

  /** After the closing quote the argument is over. */
  lemma Closed(t: string, doubled: bool)
    requires Tail(t)
    ensures One(t, false, doubled) == ("", t)
  {
  }

  /** An argument without special characters is read as it stands. */
  lemma {:induction false} PlainRoundTrip(a: string, t: string, doubled: bool)
    requires Tail(t) && forall i :: 0 <= i < |a| ==> !Special(a[i])
    ensures One(a + t, false, doubled) == (a, t)
    decreases |a|
  {
    var n := Lead(a);
    SplitRun(a, n);
    if n == |a| {
      if t != "" {
        OneStep(n, t[0], t[1..], false, doubled);
        assert a + t == Slashes(n) + [t[0]] + t[1..];
        assert t == [t[0]] + t[1..];
      } else {
        LeadIs(a + t, n);
      }
    } else {
      PlainRoundTrip(a[n + 1..], t, doubled);
      hide Lead, Slashes, One;
      OneStep(n, a[n], a[n + 1..] + t, false, doubled);
      Assoc(Slashes(n) + [a[n]], a[n + 1..], t);
    }
  }

  lemma OpenRead(t: string, doubled: bool)
    ensures One([QUOTE] + t, false, doubled) == One(t, true, doubled)
  {
    hide One;
    OneStep(0, QUOTE, t, false, doubled);
    assert Slashes(0) + [QUOTE] + t == [QUOTE] + t;
    assert Slashes(0) + One(t, true, doubled).0 == One(t, true, doubled).0;
  }

  lemma QuotedRoundTrip(a: string, t: string, doubled: bool)
    requires Tail(t)
    ensures One(Quoted(a) + t, false, doubled) == (a, t)
    ensures Quoted(a) != "" && !Blank(Quoted(a)[0])
  {
    if NeedsQuotes(a) {
      EscapedRoundTrip(a, t, doubled);
      hide Escaped, One, NeedsQuotes;
      OpenRead(Escaped(a) + [QUOTE] + t, doubled);
      Assoc3([QUOTE], Escaped(a), [QUOTE], t);
    } else {
      hide One, Escaped;
      PlainRoundTrip(a, t, doubled);
    }
  }

  /** The arguments from position i on, each after a space. */
  function Rest(argv: seq<string>, i: nat): string
    requires i <= |argv|
    decreases |argv| - i
  {
    if i == |argv| then "" else " " + Quoted(argv[i]) + Rest(argv, i + 1)
  }

  lemma {:induction false} JoinedIs(argv: seq<string>)
    requires argv != []
    ensures Joined(argv) == Quoted(argv[0]) + Rest(argv, 1)
    decreases |argv|
  {
    if |argv| > 1 {
      var p := argv[..|argv| - 1];
      JoinedIs(p);
      RestAppend(p, argv[|argv| - 1], 1);
      assert p + [argv[|argv| - 1]] == argv;
    }
  }

  lemma {:induction false} RestAppend(p: seq<string>, a: string, i: nat)
    requires i <= |p|
    ensures Rest(p + [a], i) == Rest(p, i) + " " + Quoted(a)
    decreases |p| - i
  {
    hide Quoted;
    if i < |p| {
      RestAppend(p, a, i + 1);
    } else {
      assert Rest(p + [a], i + 1) == "";
    }
  }

  /** Splitting the arguments after the program name gives them back. */
  lemma {:induction false} RestRoundTrip(argv: seq<string>, i: nat, doubled: bool)
    requires i <= |argv|
    ensures Split(Rest(argv, i), doubled) == argv[i..]
    decreases |argv| - i
  {
    hide Quoted, One, Rest, Split;
    if i == |argv| {
      RestNone(argv, doubled);
    } else {
      RestRoundTrip(argv, i + 1, doubled);
      RestStep(argv, i, doubled);
      assert argv[i..] == [argv[i]] + argv[i + 1..];
    }
  }

  lemma RestNone(argv: seq<string>, doubled: bool)
    ensures Split(Rest(argv, |argv|), doubled) == []
  {
    assert Rest(argv, |argv|) == "";
  }

  /** One argument is split off. */
  lemma RestStep(argv: seq<string>, i: nat, doubled: bool)
    requires i < |argv|
    ensures Split(Rest(argv, i), doubled) == [argv[i]] + Split(Rest(argv, i + 1), doubled)
  {
    hide Quoted, One, Rest, Split;
    RestIsTail(argv, i + 1);
    QuotedRoundTrip(argv[i], Rest(argv, i + 1), doubled);
    RestUnfold(argv, i);
    SplitStep(Quoted(argv[i]) + Rest(argv, i + 1), argv[i], Rest(argv, i + 1), doubled);
  }

  lemma RestUnfold(argv: seq<string>, i: nat)
    requires i < |argv|
    ensures Rest(argv, i) == " " + (Quoted(argv[i]) + Rest(argv, i + 1))
  {
    hide Quoted;
    Assoc(" ", Quoted(argv[i]), Rest(argv, i + 1));
  }

  lemma RestIsTail(argv: seq<string>, i: nat)
    requires i <= |argv|
    ensures Tail(Rest(argv, i))
  {
    hide Quoted;
  }

  lemma SplitStep(s: string, a: string, t: string, doubled: bool)
    requires s != "" && !Blank(s[0]) && One(s, false, doubled) == (a, t)
    ensures Split(s, doubled) == Split(" " + s, doubled) == [a] + Split(t, doubled)
  {
    hide One;
    assert (" " + s)[1..] == s;
    assert SkipBlanks(s) == s && SkipBlanks(" " + s) == s;
  }

  /** For every argument list, splitting the built command line returns the arguments. */
  lemma RoundTrip(argv: seq<string>, doubled: bool)
    ensures Split(Joined(argv), doubled) == argv
  {
    if argv != [] {
      var q, t := Quoted(argv[0]), Rest(argv, 1);
      JoinedIs(argv);
      RestIsTail(argv, 1);
      QuotedRoundTrip(argv[0], t, doubled);
      RestRoundTrip(argv, 1, doubled);
      hide Quoted, One, Rest, Joined, Split;
      SplitStep(q + t, argv[0], t, doubled);
      assert argv == [argv[0]] + argv[1..];
    }
  }

  // ------------------------------------------------------------ the program name

  /** Runtimes end the program name at the first blank outside quotes, and do not unescape it. */
  function AfterName(s: string, q: bool): string {
    if s == "" then ""
    else if s[0] == QUOTE then AfterName(s[1..], !q)
    else if !q && Blank(s[0]) then s
    else AfterName(s[1..], q)
  }

  /** Where that scan stands at the end of `x`: inside quotes or not, unless it stopped within. */
  datatype NameScan = Stopped(rest: string) | AtEnd(q: bool)

  function ScanName(x: string, q: bool): NameScan {
    if x == "" then AtEnd(q)
    else if x[0] == QUOTE then ScanName(x[1..], !q)
    else if !q && Blank(x[0]) then Stopped(x)
    else ScanName(x[1..], q)
  }

  lemma {:induction false} ScanJoin(x: string, t: string, q: bool)
    ensures AfterName(x + t, q) == match ScanName(x, q) case Stopped(r) => r + t case AtEnd(q') => AfterName(t, q')
    decreases |x|
  {
    if x == "" {
      assert x + t == t;
    } else {
      assert (x + t)[1..] == x[1..] + t;
      ScanJoin(x[1..], t, if x[0] == QUOTE then !q else q);
    }
  }

  /** A scan that stops leaves a suffix, and stops at a blank. */
  lemma {:induction false} StoppedIs(x: string, q: bool)
    requires ScanName(x, q).Stopped?
    ensures var r := ScanName(x, q).rest; r != "" && Blank(r[0]) && |r| <= |x| && r == x[|x| - |r|..]
    decreases |x|
  {
    if !(x[0] != QUOTE && !q && Blank(x[0])) { StoppedIs(x[1..], if x[0] == QUOTE then !q else q); }
  }

  /** The written program name is scanned to its end and ends outside quotes. */
  predicate NameEnds(a: string) {
    ScanName(Quoted(a), false) == AtEnd(false)
  }

  /** `r.1` is a suffix of s, and a blank of s that is not left there is in the text. */
  predicate Passes(s: string, r: (string, string)) {
    |r.1| <= |s| && r.1 == s[|s| - |r.1|..] && (' ' in s ==> ' ' in r.0 || r.1 != "")
  }

  lemma PassesMore(pre: string, t: string, front: string, r: (string, string))
    requires Passes(t, r) && (' ' in pre ==> ' ' in front)
    ensures Passes(pre + t, Then(front, r))
  {
    var s := pre + t;
    assert s[|s| - |r.1|..] == t[|t| - |r.1|..];
    assert ' ' in s ==> ' ' in pre || ' ' in t;
  }

  /** One leaves a suffix of what it was given, and a blank it passes ends up in the text. */
  lemma {:induction false} OneKeepsBlanks(s: string, q: bool, doubled: bool)
    ensures Passes(s, One(s, q, doubled))
    decreases |s|
  {
    hide Lead, One, Slashes, Passes;
    var n := Lead(s);
    SplitRun(s, n);
    SlashesOnly(n);
    SlashesOnly(n / 2);
    if n == |s| {
      OnlySlashes(s, q, doubled);
    } else {
      var c, t := s[n], s[n + 1..];
      OneStep(n, c, t, q, doubled);
      var pre := Slashes(n) + [c];
      NoBlankIn(n, c);
      if c == QUOTE && n % 2 == 0 && q && doubled && t != "" && t[0] == QUOTE {
        OneKeepsBlanks(t[1..], q, doubled);
        assert s == pre + [QUOTE] + t[1..];
        PassesMore(pre + [QUOTE], t[1..], Slashes(n / 2) + [QUOTE], One(t[1..], q, doubled));
      } else if !q && Blank(c) {
        StopsHere(s, n);
      } else {
        var q' := if c == QUOTE && n % 2 == 0 then !q else q;
        OneKeepsBlanks(t, q', doubled);
        var front := if c == QUOTE then (if n % 2 == 1 then Slashes(n / 2) + [QUOTE] else Slashes(n / 2)) else Slashes(n) + [c];
        PassesMore(pre, t, front, One(t, q', doubled));
      }
    }
  }

  lemma OnlySlashes(s: string, q: bool, doubled: bool)
    requires Lead(s) == |s|
    ensures Passes(s, One(s, q, doubled))
  {
    assert forall k :: 0 <= k < |s| ==> s[k] == BS;
  }

  lemma StopsHere(s: string, n: nat)
    requires n < |s|
    ensures Passes(s, (Slashes(n), [s[n]] + s[n + 1..]))
  {
    assert [s[n]] + s[n + 1..] == s[n..];
  }

  /** A run of backslashes holds no blank. */
  lemma NoBlankIn(n: nat, c: char)
    ensures ' ' in Slashes(n) + [c] ==> c == ' '
  {
    var x := Slashes(n) + [c];
    assert forall k :: 0 <= k < n ==> x[k] == BS;
  }

  lemma SlashesOnly(n: nat)
    ensures |Slashes(n)| == n && forall i :: 0 <= i < n ==> Slashes(n)[i] == BS
  {
  }

  /** After text that ends in a quote the two characters of " x" are never split off as the argument x alone. */
  lemma NeverJustX(u: string, doubled: bool)
    requires u != "" && u[|u| - 1] == QUOTE
    ensures Split(u + " x", doubled) != ["x"]
  {
    var s := u + " x";
    var t := SkipBlanks(s);
    SkipKeepsEnd(u);
    var r := One(t, false, doubled);
    OneKeepsBlanks(t, false, doubled);
    hide One;
    assert Split(s, doubled) == [r.0] + Split(r.1, doubled);
    if r.1 != "" {
      LastIsX(t, r.1, doubled);
    } else {
      assert ' ' in r.0;
      assert r.0 != "x" && Split(s, doubled)[0] == r.0 && ["x"][0] == "x";
    }
  }

  lemma {:induction false} SkipKeepsEnd(u: string)
    requires u != "" && u[|u| - 1] == QUOTE
    ensures var t := SkipBlanks(u + " x"); |t| >= 3 && ' ' in t && t[|t| - 1] == 'x'
    decreases |u|
  {
    var s := u + " x";
    if Blank(s[0]) {
      assert s[1..] == u[1..] + " x";
      SkipKeepsEnd(u[1..]);
    } else {
      assert s[|s| - 2] == ' ' && s[|s| - 1] == 'x';
    }
  }

  /** A non-empty suffix of text ending in x holds an argument. */
  lemma LastIsX(t: string, r: string, doubled: bool)
    requires 0 < |r| <= |t| && r == t[|t| - |r|..] && t[|t| - 1] == 'x'
    ensures Split(r, doubled) != []
  {
    hide One;
    assert r[|r| - 1] == 'x';
    SkipStops(r);
  }

  lemma {:induction false} SkipStops(r: string)
    requires r != "" && r[|r| - 1] == 'x'
    ensures SkipBlanks(r) != ""
    decreases |r|
  {
    if Blank(r[0]) { SkipStops(r[1..]); }
  }

  /** The tail of a quoted name ends in its closing quote. */
  lemma NameTail(a: string)
    requires ScanName(Quoted(a), false).Stopped?
    ensures var u := ScanName(Quoted(a), false).rest; u != "" && u[|u| - 1] == QUOTE
  {
    StoppedIs(Quoted(a), false);
    StoppedNeedsQuotes(a);
    hide ScanName, Escaped;
    var x := Quoted(a);
    assert x[|x| - 1] == QUOTE;
  }

  lemma StoppedNeedsQuotes(a: string)
    requires ScanName(Quoted(a), false).Stopped?
    ensures NeedsQuotes(a)
  {
    hide Escaped;
    assert a + "" == a;
    if !NeedsQuotes(a) { ScanText(a, "", false); }
  }

  /** The arguments after the program name come back, whatever they are. */
  ghost predicate NameHarmless(a: string, doubled: bool) {
    forall rest: seq<string> :: Split(AfterName(Joined([a] + rest), false), doubled) == rest
  }

  /**
   Where the program name is split off by its own rule, the other arguments come back for every
   argument list with this name if and only if that rule reads the written name to its end.
   */
  lemma NameHarmlessIff(a: string, doubled: bool)
    ensures NameHarmless(a, doubled) <==> NameEnds(a)
  {
    if NameEnds(a) {
      forall rest: seq<string> ensures Split(AfterName(Joined([a] + rest), false), doubled) == rest {
        NameReads(a, rest, doubled);
      }
    } else {
      NameMisreads(a, doubled);
      var rest := ["x"];
      assert Split(AfterName(Joined([a] + rest), false), doubled) != rest;
    }
  }

  lemma NameReads(a: string, rest: seq<string>, doubled: bool)
    requires NameEnds(a)
    ensures Split(AfterName(Joined([a] + rest), false), doubled) == rest
  {
    var argv := [a] + rest;
    hide Quoted, Split, Rest, Joined, ScanName;
    JoinedIs(argv);
    RestRoundTrip(argv, 1, doubled);
    RestIsTail(argv, 1);
    ScanJoin(Quoted(a), Rest(argv, 1), false);
    assert argv[1..] == rest;
  }

  lemma NameMisreads(a: string, doubled: bool)
    requires !NameEnds(a)
    ensures Split(AfterName(Joined([a] + ["x"]), false), doubled) != ["x"]
  {
    var argv := [a] + ["x"];
    JoinedIs(argv);
    OneMore(argv);
    hide Quoted, Rest, Joined, ScanName;
    ScanJoin(Quoted(a), " x", false);
    match ScanName(Quoted(a), false)
    case Stopped(u) =>
      NameTail(a);
      NeverJustX(u, doubled);
    case AtEnd(q) =>
      assert AfterName(" x", true) == "" by { Swallowed(); }
      assert Split("", doubled) == [];
  }

  lemma OneMore(argv: seq<string>)
    requires |argv| == 2 && argv[1] == "x"
    ensures Rest(argv, 1) == " x"
  {
    assert !NeedsQuotes("x");
    assert Rest(argv, 2) == "";
  }

  lemma Swallowed()
    ensures AfterName(" x", true) == ""
  {
    assert " x"[1..] == "x" && "x"[1..] == "";
    assert AfterName("x", true) == "";
  }

  /** A name without quote characters is always read to its end. */
  lemma PlainNameEnds(a: string)
    requires QUOTE !in a
    ensures NameEnds(a)
  {
    EscapedPlain(a);
    hide Escaped;
    if NeedsQuotes(a) {
      var e := Escaped(a);
      assert Quoted(a)[1..] == e + [QUOTE];
      ScanText(e, [QUOTE], true);
      assert [QUOTE][1..] == "";
      assert ScanName([QUOTE], true) == AtEnd(false);
    } else {
      ScanText(a, "", false);
      assert a + "" == a;
    }
  }

  lemma {:induction false} ScanText(x: string, t: string, q: bool)
    requires forall i :: 0 <= i < |x| ==> x[i] != QUOTE && (q || !Blank(x[i]))
    ensures ScanName(x + t, q) == ScanName(t, q)
    decreases |x|
  {
    if x == "" {
      assert x + t == t;
    } else {
      assert (x + t)[1..] == x[1..] + t;
      ScanText(x[1..], t, q);
    }
  }

  lemma {:induction false} EscapedPlain(a: string)
    requires QUOTE !in a
    ensures QUOTE !in Escaped(a)
    decreases |a|
  {
    var n := Lead(a);
    if n < |a| {
      EscapedPlain(a[n + 1..]);
      EscapedUnfold(a, n);
      hide Escaped, Lead;
      assert a[n] in a;
    }
  }

  /** A program name for which the rule goes wrong: a quote followed by a blank. */
  lemma QuoteInNameMisread()
    ensures !NameEnds("\" ")
  {
    var a := "\" ";
    QuotedExample(a);
    var x := Quoted(a);
    assert x[1..][1..][1..] == x[3..];
    assert ScanName(x[3..], false) == Stopped(x[3..]);
    assert ScanName(x[2..], true) == ScanName(x[3..], false);
    assert ScanName(x[1..], true) == ScanName(x[2..], true);
  }

  lemma QuotedExample(a: string)
    requires a == "\" "
    ensures Quoted(a) == [QUOTE, BS, QUOTE, ' ', QUOTE]
  {
    assert Special(a[0]);
    LeadIs(a, 0);
    assert a[1..] == " ";
    LeadIs(" ", 0);
    assert " "[1..] == "";
    assert Escaped("") == "";
    assert Escaped(" ") == Slashes(0) + [' '] + Escaped("") == " ";
    assert Escaped(a) == Slashes(1) + [QUOTE] + " ";
    assert Slashes(1) == [BS];
  }
}
