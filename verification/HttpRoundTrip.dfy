/** Parsing a printed request tells the callbacks exactly what was printed. */
module HttpRoundTrip {
  import opened HttpMachine
  import opened Numerals

  // ---- which requests ----

  predicate LegalVerb(s: string) {
    1 <= |s| <= 20 && forall c :: c in s ==> Upper(c)
  }

  /** Bytes that stand for themselves and escapes with two hexadecimal digits. */
  predicate Escaped(w: string, relaxed: bool, query: bool) {
    w == "" || (if w[0] == '%' then |w| >= 3 && Hex(w[1]) && Hex(w[2]) && Escaped(w[3..], relaxed, query)
                else (if query then QueryChar(w[0], relaxed) else Plain(w[0], relaxed)) && Escaped(w[1..], relaxed, query))
  }

  /** Empty, or in origin form: one slash, not two, and legal text. */
  predicate LegalPath(s: string, relaxed: bool) {
    s == "" || (s[0] == '/' && Escaped(s[1..], relaxed, false) && (|s| > 1 ==> s[1] != '/'))
  }

  predicate NameText(s: string) {
    forall c :: c in s ==> NameChar(c)
  }

  predicate ValueText(s: string) {
    forall c :: c in s ==> ValueChar(c)
  }

  predicate LegalHeader(h: Header) {
    && h.name != "" && NameStart(h.name[0]) && NameText(h.name) && ValueText(h.value)
  }

  predicate Legal(r: Request, relaxed: bool) {
    && LegalVerb(MethodName(r.verb)) && LegalPath(r.path, relaxed) && Escaped(r.query, relaxed, true)
    && Escaped(r.fragment, relaxed, true) && (r.version == 16 || r.version == 17)
    && forall h :: h in r.headers ==> LegalHeader(h)
  }

  // ---- what is told ----

  /** The value behind its leading blanks. */
  function Strip(v: string): string {
    if v != "" && Blank(v[0]) then Strip(v[1..]) else v
  }

  lemma {:induction false} StripExactly(v: string) returns (n: nat)
    ensures n <= |v| && Strip(v) == v[n..] && (n < |v| ==> !Blank(v[n])) && forall k :: 0 <= k < n ==> Blank(v[k])
    decreases |v|
  {
    n := 0;
    if v != "" && Blank(v[0]) {
      var m := StripExactly(v[1..]);
      n := m + 1;
      assert v[1..][m..] == v[n..];
      assert forall k :: 0 < k < n ==> v[k] == v[1..][k - 1];
    }
  }

  function FieldEvents(hs: seq<Header>): seq<Event> {
    if hs == [] then [] else [Field(hs[0].name, Strip(hs[0].value))] + FieldEvents(hs[1..])
  }

  function PathQuery(r: Request): string {
    r.path + if r.query == "" then "" else "?" + r.query
  }

  function PathEvents(r: Request): seq<Event> {
    if r.query == "" then [Path(r.path), Uri(r.path)] else [Path(r.path), Query(r.query), Uri(r.path + "?" + r.query)]
  }

  function FragmentEvents(r: Request): seq<Event> {
    if r.fragment == "" then [] else [Fragment(r.fragment)]
  }

  function LineEvents(r: Request): seq<Event> {
    [Method(MethodName(r.verb))] + PathEvents(r) + FragmentEvents(r) + [Version("HTTP/1." + [Minor(r)])]
  }

  function Told(r: Request): seq<Event> {
    LineEvents(r) + FieldEvents(Fields(r)) + [HeaderDone(|r.body|)]
  }

  // ---- running over a piece of text ----

  /** The machine is inside the buffer and has `todo` before it. */
  predicate Before(m: Machine, buf: string, todo: string) {
    Sane(m) && m.stop.Running? && m.p <= |buf| && buf[m.p..] == todo
  }

  lemma Behind(buf: string, p: nat, w: string, rest: string)
    requires p <= |buf| && buf[p..] == w + rest
    ensures p + |w| <= |buf| && buf[p + |w|..] == rest && buf[p..p + |w|] == w
  {
    assert buf[p + |w|..] == buf[p..][|w|..];
    assert buf[p..p + |w|] == buf[p..][..|w|];
  }

  /** One byte. */
  lemma Take(m: Machine, buf: string, relaxed: bool, c: char, rest: string) returns (n: Machine)
    requires Before(m, buf, [c] + rest)
    ensures m.p < |buf| && buf[m.p] == c && n == Step(m, buf, relaxed) && Run(m, buf, relaxed) == Run(n, buf, relaxed)
    ensures n.stop.Running? ==> Before(n, buf, rest)
  {
    Behind(buf, m.p, [c], rest);
    n := Step(m, buf, relaxed);
  }

  /** The state behind `k` bytes of the method. */
  function VerbState(k: nat): nat {
    if k == 1 then 2 else 173 + k
  }

  lemma {:induction false} VerbRun(m: Machine, buf: string, relaxed: bool, k: nat, w: string, rest: string) returns (n: Machine)
    requires Before(m, buf, w + rest) && 1 <= k && k + |w| <= 20 && m.cs == VerbState(k) && forall c :: c in w ==> Upper(c)
    ensures Before(n, buf, rest) && Run(m, buf, relaxed) == Run(n, buf, relaxed)
    ensures n == m.(cs := VerbState(k + |w|), p := m.p + |w|)
    decreases |w|
  {
    if w == "" {
      assert w + rest == rest;
      n := m;
    } else {
      assert w + rest == [w[0]] + (w[1..] + rest);
      n := Take(m, buf, relaxed, w[0], w[1..] + rest);
      n := VerbRun(n, buf, relaxed, k + 1, w[1..], rest);
    }
  }

  /** One byte or one escape of a path, query or fragment. */
  lemma UnitRun(m: Machine, buf: string, relaxed: bool, w: string, rest: string) returns (n: Machine, u: nat)
    requires Before(m, buf, w + rest) && m.cs in {20, 21, 26, 29, 30, 33} && w != ""
    requires Escaped(w, relaxed, m.cs != 26 && m.cs != 33) && !(m.cs == 33 && w[0] == '/')
    ensures 0 < u <= |w| && Before(n, buf, w[u..] + rest) && Run(m, buf, relaxed) == Run(n, buf, relaxed)
    ensures Escaped(w[u..], relaxed, m.cs != 26 && m.cs != 33)
    ensures n.cs == Inside(m.cs) && n.p == m.p + u && n.events == m.events
    ensures n.mark == (if m.cs == 20 then m.p else m.mark) && n.queryStart == (if m.cs == 29 then m.p else m.queryStart)
  {
    hide OnMethod, OnTarget, OnVersion, OnLine, OnName, OnValue, OnEscape, Run;
    if w[0] == '%' {
      n := EscapeRun(m, buf, relaxed, w, rest);
      u := 3;
    } else {
      assert w + rest == [w[0]] + (w[1..] + rest);
      n := Take(m, buf, relaxed, w[0], w[1..] + rest);
      u := 1;
    }
  }

  lemma EscapeRun(m: Machine, buf: string, relaxed: bool, w: string, rest: string) returns (n: Machine)
    requires Before(m, buf, w + rest) && m.cs in {20, 21, 26, 29, 30, 33}
    requires |w| >= 3 && w[0] == '%' && Hex(w[1]) && Hex(w[2])
    ensures Before(n, buf, w[3..] + rest) && Run(m, buf, relaxed) == Run(n, buf, relaxed)
    ensures n.cs == Inside(m.cs) && n.p == m.p + 3 && n.events == m.events
    ensures n.mark == (if m.cs == 20 then m.p else m.mark) && n.queryStart == (if m.cs == 29 then m.p else m.queryStart)
  {
    hide OnMethod, OnTarget, OnVersion, OnLine, OnName, OnValue, Run, Hex;
    assert w + rest == [w[0]] + (w[1..] + rest);
    n := Take(m, buf, relaxed, w[0], w[1..] + rest);
    assert n.cs in {22, 27, 31};
    assert w[1..] + rest == [w[1]] + (w[2..] + rest);
    n := Take(n, buf, relaxed, w[1], w[2..] + rest);
    assert w[2..] + rest == [w[2]] + (w[3..] + rest);
    n := Take(n, buf, relaxed, w[2], w[3..] + rest);
  }

  /** The state inside a path, query or fragment. */
  function Inside(cs: nat): nat {
    if cs == 20 || cs == 21 then 21 else if cs == 29 || cs == 30 then 30 else 26
  }

  lemma {:induction false} TextRun(m: Machine, buf: string, relaxed: bool, w: string, rest: string) returns (n: Machine)
    requires Before(m, buf, w + rest) && m.cs in {21, 26, 30} && Escaped(w, relaxed, m.cs != 26)
    ensures Before(n, buf, rest) && Run(m, buf, relaxed) == Run(n, buf, relaxed)
    ensures n.cs == m.cs && n.p == m.p + |w| && n.events == m.events && n.mark == m.mark && n.queryStart == m.queryStart
    decreases |w|
  {
    if w == "" {
      assert w + rest == rest;
      n := m;
    } else {
      var u;
      n, u := UnitRun(m, buf, relaxed, w, rest);
      n := TextRun(n, buf, relaxed, w[u..], rest);
    }
  }

  /** The whole of a path behind its slash, a query or a fragment. */
  lemma PartRun(m: Machine, buf: string, relaxed: bool, w: string, rest: string) returns (n: Machine)
    requires Before(m, buf, w + rest) && m.cs in {20, 29, 33} && w != ""
    requires Escaped(w, relaxed, m.cs != 33) && !(m.cs == 33 && w[0] == '/')
    ensures Before(n, buf, rest) && Run(m, buf, relaxed) == Run(n, buf, relaxed)
    ensures n.cs == Inside(m.cs) && n.p == m.p + |w| && n.events == m.events
    ensures n.mark == (if m.cs == 20 then m.p else m.mark) && n.queryStart == (if m.cs == 29 then m.p else m.queryStart)
  {
    var u;
    n, u := UnitRun(m, buf, relaxed, w, rest);
    n := TextRun(n, buf, relaxed, w[u..], rest);
  }

  /** The byte behind the path. */
  lemma PathEnd(m: Machine, buf: string, relaxed: bool, c: char, rest: string) returns (n: Machine)
    requires Before(m, buf, [c] + rest) && (m.cs == 26 || m.cs == 33) && (c == ' ' || c == '#' || c == '?')
    ensures Before(n, buf, rest) && Run(m, buf, relaxed) == Run(n, buf, relaxed)
    ensures n.p == m.p + 1 && n.mark == m.mark && n.cs == if c == ' ' then 4 else if c == '#' then 20 else 29
    ensures n.events == m.events + if c == '?' then [Path(Marked(m, buf))] else [Path(Marked(m, buf)), Uri(Marked(m, buf))]
  {
    hide OnMethod, OnTarget, OnVersion, OnLine, OnName, OnValue, OnEscape, OnQuery, OnFragment, Run, Plain;
    n := Take(m, buf, relaxed, c, rest);
  }

  lemma EmptyPath(m: Machine, buf: string, relaxed: bool, c: char, rest: string) returns (n: Machine)
    requires Before(m, buf, [c] + rest) && m.cs == 3 && (c == ' ' || c == '#' || c == '?')
    ensures Before(n, buf, rest) && Run(m, buf, relaxed) == Run(n, buf, relaxed)
    ensures n.p == m.p + 1 && n.mark == m.p && n.cs == if c == ' ' then 4 else if c == '#' then 20 else 29
    ensures n.events == m.events + if c == '?' then [Path("")] else [Path(""), Uri("")]
  {
    hide OnMethod, OnPath, OnVersion, OnLine, OnName, OnValue, OnEscape, OnQuery, OnFragment, Run, Plain;
    n := Take(m, buf, relaxed, c, rest);
    assert buf[m.p..m.p] == "";
  }

  lemma PathStart(m: Machine, buf: string, relaxed: bool, rest: string) returns (n: Machine)
    requires Before(m, buf, ['/'] + rest) && m.cs == 3
    ensures Before(n, buf, rest) && Run(m, buf, relaxed) == Run(n, buf, relaxed)
    ensures n.p == m.p + 1 && n.mark == m.p && n.cs == 33 && n.events == m.events
  {
    hide OnMethod, OnPath, OnVersion, OnLine, OnName, OnValue, OnEscape, OnQuery, OnFragment, Run, Plain;
    n := Take(m, buf, relaxed, '/', rest);
  }

  /** The path stage: from the target's first byte to the byte behind the path. */
  lemma PathStage(m: Machine, buf: string, relaxed: bool, w: string, c: char, rest: string) returns (n: Machine)
    requires Before(m, buf, w + ([c] + rest)) && m.cs == 3 && LegalPath(w, relaxed) && (c == ' ' || c == '#' || c == '?')
    ensures Before(n, buf, rest) && Run(m, buf, relaxed) == Run(n, buf, relaxed)
    ensures n.p == m.p + |w| + 1 && n.mark == m.p && n.cs == if c == ' ' then 4 else if c == '#' then 20 else 29
    ensures n.events == m.events + if c == '?' then [Path(w)] else [Path(w), Uri(w)]
  {
    hide Step, Run, Escaped;
    if w == "" {
      assert w + ([c] + rest) == [c] + rest;
      n := EmptyPath(m, buf, relaxed, c, rest);
    } else {
      assert w + ([c] + rest) == ['/'] + (w[1..] + ([c] + rest));
      Behind(buf, m.p, w, [c] + rest);
      n := PathStart(m, buf, relaxed, w[1..] + ([c] + rest));
      if w[1..] != "" {
        n := PartRun(n, buf, relaxed, w[1..], [c] + rest);
      } else {
        assert w[1..] + ([c] + rest) == [c] + rest;
      }
      n := PathEnd(n, buf, relaxed, c, rest);
    }
  }

  lemma QueryStage(m: Machine, buf: string, relaxed: bool, w: string, c: char, rest: string) returns (n: Machine)
    requires Before(m, buf, w + ([c] + rest)) && m.cs == 29 && w != "" && Escaped(w, relaxed, true) && (c == ' ' || c == '#')
    ensures Before(n, buf, rest) && Run(m, buf, relaxed) == Run(n, buf, relaxed)
    ensures m.mark <= m.p + |w| <= |buf| && n.p == m.p + |w| + 1 && n.cs == if c == ' ' then 4 else 20
    ensures n.events == m.events + [Query(w), Uri(buf[m.mark..m.p + |w|])]
  {
    hide OnMethod, OnTarget, OnVersion, OnLine, OnName, OnValue, OnEscape, OnPath, OnFragment, Run, Escaped, QueryChar;
    Behind(buf, m.p, w, [c] + rest);
    n := PartRun(m, buf, relaxed, w, [c] + rest);
    n := Take(n, buf, relaxed, c, rest);
  }

  lemma FragmentStage(m: Machine, buf: string, relaxed: bool, w: string, rest: string) returns (n: Machine)
    requires Before(m, buf, w + ([' '] + rest)) && m.cs == 20 && w != "" && Escaped(w, relaxed, true)
    ensures Before(n, buf, rest) && Run(m, buf, relaxed) == Run(n, buf, relaxed)
    ensures n.cs == 4 && n.events == m.events + [Fragment(w)]
  {
    hide OnMethod, OnTarget, OnVersion, OnLine, OnName, OnValue, OnEscape, OnPath, OnQuery, Run, Escaped, QueryChar;
    Behind(buf, m.p, w, [' '] + rest);
    n := PartRun(m, buf, relaxed, w, [' '] + rest);
    n := Take(n, buf, relaxed, ' ', rest);
  }

  /** A path with a query, and the byte behind it. */
  lemma PathWithQuery(m: Machine, buf: string, relaxed: bool, path: string, query: string, c: char, rest: string)
    returns (n: Machine)
    requires Before(m, buf, (path + "?" + query) + ([c] + rest)) && m.cs == 3 && LegalPath(path, relaxed)
    requires query != "" && Escaped(query, relaxed, true) && (c == ' ' || c == '#')
    ensures Before(n, buf, rest) && Run(m, buf, relaxed) == Run(n, buf, relaxed) && n.cs == if c == ' ' then 4 else 20
    ensures n.events == m.events + [Path(path), Query(query), Uri(path + "?" + query)]
  {
    hide LegalPath, Escaped, Run, Step;
    assert (path + "?" + query) + ([c] + rest) == path + (['?'] + (query + ([c] + rest)));
    Behind(buf, m.p, path + "?" + query, [c] + rest);
    n := PathStage(m, buf, relaxed, path, '?', query + ([c] + rest));
    var e := n.events;
    n := QueryStage(n, buf, relaxed, query, c, rest);
  }

  lemma PathAndQuery(m: Machine, buf: string, relaxed: bool, r: Request, c: char, rest: string) returns (n: Machine)
    requires Before(m, buf, PathQuery(r) + ([c] + rest)) && m.cs == 3 && LegalPath(r.path, relaxed)
    requires Escaped(r.query, relaxed, true) && (c == ' ' || c == '#')
    ensures Before(n, buf, rest) && Run(m, buf, relaxed) == Run(n, buf, relaxed) && n.cs == if c == ' ' then 4 else 20
    ensures n.events == m.events + PathEvents(r)
  {
    hide LegalPath, Escaped, Run, Step;
    if r.query == "" {
      assert PathQuery(r) == r.path;
      n := PathStage(m, buf, relaxed, r.path, c, rest);
    } else {
      assert PathQuery(r) == r.path + "?" + r.query;
      n := PathWithQuery(m, buf, relaxed, r.path, r.query, c, rest);
    }
  }

  lemma TargetText(r: Request, rest: string)
    ensures Target(r) + ([' '] + rest) == PathQuery(r) + (if r.fragment == "" then [' '] + rest
                                                          else ['#'] + (r.fragment + ([' '] + rest)))
  {
  }

  /** The path, query and fragment, and the space behind them. */
  lemma TargetStage(m: Machine, buf: string, relaxed: bool, r: Request, rest: string) returns (n: Machine)
    requires Before(m, buf, Target(r) + ([' '] + rest)) && m.cs == 3 && LegalPath(r.path, relaxed)
    requires Escaped(r.query, relaxed, true) && Escaped(r.fragment, relaxed, true)
    ensures Before(n, buf, rest) && Run(m, buf, relaxed) == Run(n, buf, relaxed) && n.cs == 4
    ensures n.events == m.events + PathEvents(r) + FragmentEvents(r)
  {
    hide LegalPath, Escaped, Run, Step, Target, PathQuery, PathEvents;
    TargetText(r, rest);
    if r.fragment == "" {
      n := PathAndQuery(m, buf, relaxed, r, ' ', rest);
    } else {
      n := PathAndQuery(m, buf, relaxed, r, '#', r.fragment + ([' '] + rest));
      n := FragmentStage(n, buf, relaxed, r.fragment, rest);
    }
  }

  // ---- the version ----

  lemma {:induction false} LiteralRun(m: Machine, buf: string, relaxed: bool, i: nat, rest: string) returns (n: Machine)
    requires 4 <= i <= 11 && m.cs == i && Before(m, buf, "HTTP/1."[i - 4..] + rest)
    ensures Before(n, buf, rest) && Run(m, buf, relaxed) == Run(n, buf, relaxed)
    ensures n.cs == 11 && n.p == m.p + 11 - i && n.events == m.events && n.mark == if i == 4 then m.p else m.mark
    decreases 11 - i
  {
    hide Step, Run, Expected;
    LiteralText(i, rest);
    if i == 11 {
      n := m;
    } else {
      n := LiteralByte(m, buf, relaxed, i, "HTTP/1."[i - 3..] + rest);
      n := LiteralRun(n, buf, relaxed, i + 1, rest);
    }
  }

  lemma LiteralText(i: nat, rest: string)
    requires 4 <= i <= 11
    ensures "HTTP/1."[i - 4..] + rest == if i == 11 then rest else [Expected(i)] + ("HTTP/1."[i - 3..] + rest)
  {
    if i < 11 {
      assert "HTTP/1."[i - 4..] == [Expected(i)] + "HTTP/1."[i - 3..];
    }
  }

  lemma LiteralByte(m: Machine, buf: string, relaxed: bool, i: nat, rest: string) returns (n: Machine)
    requires 4 <= i <= 10 && m.cs == i && Before(m, buf, [Expected(i)] + rest)
    ensures Before(n, buf, rest) && Run(m, buf, relaxed) == Run(n, buf, relaxed)
    ensures n.cs == i + 1 && n.p == m.p + 1 && n.events == m.events && n.mark == if i == 4 then m.p else m.mark
  {
    hide OnMethod, OnTarget, OnPath, OnLine, OnName, OnValue, OnEscape, OnQuery, OnFragment, Run, Expected;
    n := Take(m, buf, relaxed, Expected(i), rest);
  }

  lemma LineEnd(m: Machine, buf: string, relaxed: bool, rest: string) returns (n: Machine)
    requires Before(m, buf, ['\n'] + rest) && m.cs == 17
    ensures Before(n, buf, rest) && Run(m, buf, relaxed) == Run(n, buf, relaxed)
    ensures n.cs == 13 && n.p == m.p + 1 && n.events == m.events
  {
    hide OnMethod, OnTarget, OnPath, OnLine, OnName, OnValue, OnEscape, OnQuery, OnFragment, OnVersion, Run;
    n := Take(m, buf, relaxed, '\n', rest);
  }

  lemma MinorStep(m: Machine, buf: string, relaxed: bool, d: char, rest: string) returns (n: Machine)
    requires Before(m, buf, [d] + rest) && m.cs == 11 && (d == '0' || d == '1')
    ensures Before(n, buf, rest) && Run(m, buf, relaxed) == Run(n, buf, relaxed)
    ensures n.cs == 12 && n.p == m.p + 1 && n.events == m.events && n.mark == m.mark
  {
    hide OnMethod, OnTarget, OnPath, OnLine, OnName, OnValue, OnEscape, OnQuery, OnFragment, Run;
    n := Take(m, buf, relaxed, d, rest);
  }

  lemma VersionEnd(m: Machine, buf: string, relaxed: bool, rest: string) returns (n: Machine)
    requires Before(m, buf, ['\r'] + rest) && m.cs == 12
    ensures Before(n, buf, rest) && Run(m, buf, relaxed) == Run(n, buf, relaxed)
    ensures n.cs == 17 && n.p == m.p + 1 && n.events == m.events + [Version(Marked(m, buf))]
  {
    hide OnMethod, OnTarget, OnPath, OnLine, OnName, OnValue, OnEscape, OnQuery, OnFragment, Run;
    n := Take(m, buf, relaxed, '\r', rest);
  }

  lemma VersionStage(m: Machine, buf: string, relaxed: bool, d: char, rest: string) returns (n: Machine)
    requires m.cs == 4 && (d == '0' || d == '1') && Before(m, buf, ("HTTP/1." + [d]) + ("\r\n" + rest))
    ensures Before(n, buf, rest) && Run(m, buf, relaxed) == Run(n, buf, relaxed)
    ensures n.cs == 13 && n.events == m.events + [Version("HTTP/1." + [d])]
  {
    hide Run, Step;
    Behind(buf, m.p, "HTTP/1." + [d], "\r\n" + rest);
    assert ("HTTP/1." + [d]) + ("\r\n" + rest) == "HTTP/1."[0..] + ([d] + (['\r'] + (['\n'] + rest)));
    n := LiteralRun(m, buf, relaxed, 4, [d] + (['\r'] + (['\n'] + rest)));
    n := MinorStep(n, buf, relaxed, d, ['\r'] + (['\n'] + rest));
    n := VersionEnd(n, buf, relaxed, ['\n'] + rest);
    n := LineEnd(n, buf, relaxed, rest);
  }

  // ---- the headers ----

  lemma {:induction false} NameRun(m: Machine, buf: string, relaxed: bool, w: string, rest: string) returns (n: Machine)
    requires Before(m, buf, w + rest) && m.cs == 14 && NameText(w)
    ensures Before(n, buf, rest) && Run(m, buf, relaxed) == Run(n, buf, relaxed)
    ensures n == m.(p := m.p + |w|)
    decreases |w|
  {
    hide OnMethod, OnTarget, OnPath, OnLine, OnValue, OnEscape, OnQuery, OnFragment, OnVersion, Run;
    if w == "" {
      assert w + rest == rest;
      n := m;
    } else {
      assert w + rest == [w[0]] + (w[1..] + rest);
      n := Take(m, buf, relaxed, w[0], w[1..] + rest);
      assert NameChar(w[0]) && w[0] != ':';
      n := NameRun(n, buf, relaxed, w[1..], rest);
    }
  }

  /** The name and its colon. */
  lemma NameStage(m: Machine, buf: string, relaxed: bool, w: string, rest: string) returns (n: Machine)
    requires Before(m, buf, w + ([':'] + rest)) && m.cs == 13
    requires w != "" && NameStart(w[0]) && NameText(w)
    ensures Before(n, buf, rest) && Run(m, buf, relaxed) == Run(n, buf, relaxed)
    ensures n.cs == 15 && n.p == m.p + |w| + 1 && n.fieldStart == m.p && n.fieldLen == |w| && n.events == m.events
  {
    hide OnMethod, OnTarget, OnPath, OnValue, OnEscape, OnQuery, OnFragment, OnVersion, Run, NameChar;
    assert w + ([':'] + rest) == [w[0]] + (w[1..] + ([':'] + rest));
    n := Take(m, buf, relaxed, w[0], w[1..] + ([':'] + rest));
    n := NameRun(n, buf, relaxed, w[1..], [':'] + rest);
    n := Take(n, buf, relaxed, ':', rest);
  }

  /** In the value every byte is taken up to the carriage return. */
  lemma {:induction false} ValueRun(m: Machine, buf: string, relaxed: bool, w: string, rest: string) returns (n: Machine)
    requires Before(m, buf, w + rest) && m.cs == 16 && ValueText(w)
    ensures Before(n, buf, rest) && Run(m, buf, relaxed) == Run(n, buf, relaxed)
    ensures n == m.(p := m.p + |w|)
    decreases |w|
  {
    hide OnMethod, OnTarget, OnPath, OnLine, OnName, OnEscape, OnQuery, OnFragment, OnVersion, Run;
    if w == "" {
      assert w + rest == rest;
      n := m;
    } else {
      assert w + rest == [w[0]] + (w[1..] + rest);
      n := Take(m, buf, relaxed, w[0], w[1..] + rest);
      assert ValueChar(w[0]);
      n := ValueRun(n, buf, relaxed, w[1..], rest);
    }
  }

  lemma ValueEnd(m: Machine, buf: string, relaxed: bool, rest: string) returns (n: Machine)
    requires Before(m, buf, ['\r'] + rest) && m.cs == 16
    ensures Before(n, buf, rest) && Run(m, buf, relaxed) == Run(n, buf, relaxed) && n.cs == 17
    ensures n.events == m.events + [Field(buf[m.fieldStart..m.fieldStart + m.fieldLen], Marked(m, buf))]
  {
    hide OnMethod, OnTarget, OnPath, OnLine, OnName, OnEscape, OnQuery, OnFragment, OnVersion, Run;
    n := Take(m, buf, relaxed, '\r', rest);
  }

  /** The first byte of a value, or a blank before it. */
  lemma ValueBegins(m: Machine, buf: string, relaxed: bool, c: char, rest: string) returns (n: Machine)
    requires Before(m, buf, [c] + rest) && m.cs == 15 && ValueChar(c)
    ensures Before(n, buf, rest) && Run(m, buf, relaxed) == Run(n, buf, relaxed)
    ensures n == m.(mark := m.p, p := m.p + 1, cs := if Blank(c) then 15 else 16)
  {
    hide OnMethod, OnTarget, OnPath, OnLine, OnName, OnEscape, OnQuery, OnFragment, OnVersion, Run, Blank;
    n := Take(m, buf, relaxed, c, rest);
  }

  lemma EmptyValue(m: Machine, buf: string, relaxed: bool, rest: string) returns (n: Machine)
    requires Before(m, buf, ['\r'] + rest) && m.cs == 15
    ensures Before(n, buf, rest) && Run(m, buf, relaxed) == Run(n, buf, relaxed) && n.cs == 17
    ensures n.events == m.events + [Field(buf[m.fieldStart..m.fieldStart + m.fieldLen], "")]
  {
    hide OnMethod, OnTarget, OnPath, OnLine, OnName, OnEscape, OnQuery, OnFragment, OnVersion, Run;
    n := Take(m, buf, relaxed, '\r', rest);
    assert buf[m.p..m.p] == "";
  }

  /** Blanks before the value are passed over. */
  lemma {:induction false} ValueStage(m: Machine, buf: string, relaxed: bool, w: string, rest: string) returns (n: Machine)
    requires Before(m, buf, w + (['\r'] + rest)) && m.cs == 15 && ValueText(w)
    ensures Before(n, buf, rest) && Run(m, buf, relaxed) == Run(n, buf, relaxed)
    ensures n.cs == 17 && m.fieldStart + m.fieldLen <= |buf|
    ensures n.events == m.events + [Field(buf[m.fieldStart..m.fieldStart + m.fieldLen], Strip(w))]
    decreases |w|
  {
    hide Step, Run, ValueChar, Blank;
    if w == "" {
      assert w + (['\r'] + rest) == ['\r'] + rest;
      n := EmptyValue(m, buf, relaxed, rest);
    } else {
      Behind(buf, m.p, w, ['\r'] + rest);
      assert w + (['\r'] + rest) == [w[0]] + (w[1..] + (['\r'] + rest));
      n := ValueBegins(m, buf, relaxed, w[0], w[1..] + (['\r'] + rest));
      if Blank(w[0]) {
        n := ValueStage(n, buf, relaxed, w[1..], rest);
      } else {
        n := ValueRun(n, buf, relaxed, w[1..], ['\r'] + rest);
        n := ValueEnd(n, buf, relaxed, rest);
      }
    }
  }

  lemma HeaderStage(m: Machine, buf: string, relaxed: bool, h: Header, rest: string) returns (n: Machine)
    requires Before(m, buf, HeaderLine(h) + rest) && m.cs == 13 && LegalHeader(h)
    ensures Before(n, buf, rest) && Run(m, buf, relaxed) == Run(n, buf, relaxed)
    ensures n.cs == 13 && n.events == m.events + [Field(h.name, Strip(h.value))]
  {
    hide Run, Step, NameChar, ValueChar, Strip;
    var tail := h.value + (['\r'] + (['\n'] + rest));
    assert HeaderLine(h) + rest == h.name + ([':'] + tail);
    Behind(buf, m.p, h.name, [':'] + tail);
    n := NameStage(m, buf, relaxed, h.name, tail);
    n := ValueStage(n, buf, relaxed, h.value, ['\n'] + rest);
    n := LineEnd(n, buf, relaxed, rest);
  }

  lemma LinesText(hs: seq<Header>, rest: string)
    ensures HeaderLines(hs) + rest == if hs == [] then rest else HeaderLine(hs[0]) + (HeaderLines(hs[1..]) + rest)
  {
  }

  lemma EventsText(es: seq<Event>, hs: seq<Header>)
    ensures es + FieldEvents(hs)
         == if hs == [] then es else es + [Field(hs[0].name, Strip(hs[0].value))] + FieldEvents(hs[1..])
  {
  }

  lemma {:induction false} HeadersStage(m: Machine, buf: string, relaxed: bool, hs: seq<Header>, rest: string)
    returns (n: Machine)
    requires Before(m, buf, HeaderLines(hs) + rest) && m.cs == 13 && forall h :: h in hs ==> LegalHeader(h)
    ensures Before(n, buf, rest) && Run(m, buf, relaxed) == Run(n, buf, relaxed)
    ensures n.cs == 13 && n.events == m.events + FieldEvents(hs)
    decreases |hs|
  {
    hide Run, Step, LegalHeader, HeaderLine, HeaderLines, FieldEvents, Strip;
    LinesText(hs, rest);
    EventsText(m.events, hs);
    if hs == [] {
      n := m;
    } else {
      n := HeaderStage(m, buf, relaxed, hs[0], HeaderLines(hs[1..]) + rest);
      n := HeadersStage(n, buf, relaxed, hs[1..], rest);
    }
  }

  // ---- the whole request ----

  lemma VerbStage(m: Machine, buf: string, relaxed: bool, w: string, rest: string) returns (n: Machine)
    requires Before(m, buf, w + ([' '] + rest)) && m.cs == 1 && LegalVerb(w)
    ensures Before(n, buf, rest) && Run(m, buf, relaxed) == Run(n, buf, relaxed)
    ensures n.cs == 3 && n.events == m.events + [Method(w)]
  {
    hide OnTarget, OnPath, OnLine, OnName, OnEscape, OnQuery, OnFragment, OnVersion, OnValue, Run;
    Behind(buf, m.p, w, [' '] + rest);
    assert w + ([' '] + rest) == [w[0]] + (w[1..] + ([' '] + rest));
    assert Upper(w[0]);
    n := Take(m, buf, relaxed, w[0], w[1..] + ([' '] + rest));
    n := VerbRun(n, buf, relaxed, 1, w[1..], [' '] + rest);
    assert Marked(n, buf) == w;
    n := Take(n, buf, relaxed, ' ', rest);
  }

  /** The empty line ends the headers; what follows is the body. */
  lemma EndStage(m: Machine, buf: string, relaxed: bool, body: string) returns (n: Machine)
    requires Before(m, buf, "\r\n" + body) && m.cs == 13
    ensures n == Run(m, buf, relaxed) && n.stop.Finished? && n.cs == 348 && n.bodyStart == n.p == |buf| - |body|
    ensures n.events == m.events + [HeaderDone(|body|)]
  {
    hide OnMethod, OnTarget, OnPath, OnEscape, OnQuery, OnFragment, OnVersion, OnValue;
    assert "\r\n" + body == ['\r'] + (['\n'] + body);
    n := Take(m, buf, relaxed, '\r', ['\n'] + body);
    n := Take(n, buf, relaxed, '\n', body);
  }

  lemma FieldsLegal(r: Request, relaxed: bool)
    requires Legal(r, relaxed)
    ensures forall h :: h in Fields(r) ==> LegalHeader(h)
  {
    hide LegalHeader;
    ShownLegal(r.headers);
    ConnectionLegal(r.close);
    LengthLegal(|r.body|);
  }

  lemma ConnectionLegal(close: bool)
    ensures LegalHeader(Header("connection", if close then " close" else " keep-alive"))
  {
    hide NameChar, ValueChar;
    assert NameText("connection") && NameStart('c') by { PlainNames(); }
    assert ValueText(if close then " close" else " keep-alive") by { PlainValues(); }
  }

  lemma PlainNames()
    ensures NameText("connection") && NameText("content-length") && NameStart('c')
  {
    assert NameText("connection");
    assert NameText("content-length");
  }

  lemma PlainValues()
    ensures ValueText(" close") && ValueText(" keep-alive")
  {
    assert ValueText(" close");
    assert ValueText(" keep-alive");
  }

  lemma LengthLegal(n: nat)
    ensures LegalHeader(Header("content-length", " " + Decimal(n)))
  {
    hide Decimal, NameChar;
    assert NameText("content-length") && NameStart('c') by { PlainNames(); }
  }

  lemma {:induction false} ShownLegal(hs: seq<Header>)
    requires forall h :: h in hs ==> LegalHeader(h)
    ensures forall h :: h in Shown(hs) ==> LegalHeader(h)
    decreases |hs|
  {
    if hs != [] { ShownLegal(hs[1..]); }
  }

  lemma LineText(r: Request, rest: string)
    requires r.version == 16 || r.version == 17
    ensures RequestLine(r) + rest
         == MethodName(r.verb) + ([' '] + (Target(r) + ([' '] + (("HTTP/1." + [Minor(r)]) + ("\r\n" + rest)))))
  {
    hide Target, MethodName;
    assert Decimal(r.version / 16) == "1" && Decimal(r.version % 16) == [Minor(r)];
    assert " HTTP/" + "1" + "." + [Minor(r)] + "\r\n" == [' '] + (("HTTP/1." + [Minor(r)]) + "\r\n");
  }

  function Minor(r: Request): char {
    if r.version == 16 then '0' else '1'
  }

  /** The request line and its line end. */
  lemma LineStage(m: Machine, buf: string, relaxed: bool, r: Request, rest: string) returns (n: Machine)
    requires Before(m, buf, RequestLine(r) + rest) && m.cs == 1 && Legal(r, relaxed)
    ensures Before(n, buf, rest) && Run(m, buf, relaxed) == Run(n, buf, relaxed) && n.cs == 13
    ensures n.events == m.events + LineEvents(r)
  {
    hide Run, Step, LegalVerb, LegalPath, Escaped, LegalHeader, RequestLine, Target, PathEvents, FragmentEvents, MethodName;
    LineText(r, rest);
    var t3 := ("HTTP/1." + [Minor(r)]) + ("\r\n" + rest);
    n := VerbStage(m, buf, relaxed, MethodName(r.verb), Target(r) + ([' '] + t3));
    n := TargetStage(n, buf, relaxed, r, t3);
    n := VersionStage(n, buf, relaxed, Minor(r), rest);
  }

  /** Which headers are told: the flag first, then the map's but for its own connection header, then the length. */
  lemma FieldsTold(r: Request)
    ensures FieldEvents(Fields(r)) == [Field("connection", if r.close then "close" else "keep-alive")]
      + FieldEvents(Shown(r.headers)) + (if r.body == "" then [] else [Field("content-length", Decimal(|r.body|))])
  {
    hide Strip, Shown, Decimal, FieldEvents;
    var state, digits := if r.close then "close" else "keep-alive", Decimal(|r.body|);
    var flag, length := Header("connection", [' '] + state), Header("content-length", [' '] + digits);
    assert [' '] + state == (if r.close then " close" else " keep-alive") && [' '] + digits == " " + digits;
    assert Fields(r) == [flag] + Shown(r.headers) + if r.body == "" then [] else [length];
    EventsOfBoth([flag] + Shown(r.headers), if r.body == "" then [] else [length]);
    EventsOfBoth([flag], Shown(r.headers));
    EventOfOne(flag);
    EventOfOne(length);
    OneBlank(state);
    OneBlank(digits);
  }

  lemma EventOfOne(h: Header)
    ensures FieldEvents([h]) == [Field(h.name, Strip(h.value))] && FieldEvents([]) == []
  {
    assert [h][1..] == [];
  }

  lemma OneBlank(v: string)
    requires v != "" && !Blank(v[0])
    ensures Strip([' '] + v) == v
  {
    assert ([' '] + v)[1..] == v;
  }

  lemma EventSteps(hs: seq<Header>)
    ensures FieldEvents(hs) == if hs == [] then [] else [Field(hs[0].name, Strip(hs[0].value))] + FieldEvents(hs[1..])
  {
    hide Strip;
  }

  lemma {:induction false} EventsOfBoth(a: seq<Header>, b: seq<Header>)
    ensures FieldEvents(a + b) == FieldEvents(a) + FieldEvents(b)
    decreases |a|
  {
    hide FieldEvents;
    EventSteps(a);
    EventSteps(a + b);
    if a == [] {
      assert a + b == b;
    } else {
      EventsOfBoth(a[1..], b);
      assert (a + b)[1..] == a[1..] + b && (a + b)[0] == a[0];
      var first := [Field(a[0].name, Strip(a[0].value))];
      assert first + (FieldEvents(a[1..]) + FieldEvents(b)) == (first + FieldEvents(a[1..])) + FieldEvents(b);
    }
  }

  lemma {:induction false} ShownOfBoth(a: seq<Header>, b: seq<Header>)
    ensures Shown(a + b) == Shown(a) + Shown(b)
    decreases |a|
  {
    hide Shown;
    if a == [] {
      ShownSteps(a);
      assert a + b == b;
    } else {
      ShownOfBoth(a[1..], b);
      ShownSteps(a);
      ShownSteps(a + b);
      assert (a + b)[1..] == a[1..] + b && (a + b)[0] == a[0];
      var first := OneShown(a[0]);
      assert first + (Shown(a[1..]) + Shown(b)) == (first + Shown(a[1..])) + Shown(b);
    }
  }

  function OneShown(h: Header): seq<Header> {
    if SameName(h.name, "connection") then [] else [h]
  }

  lemma ShownSteps(hs: seq<Header>)
    ensures Shown(hs) == if hs == [] then [] else OneShown(hs[0]) + Shown(hs[1..])
  {
    hide SameName;
  }

  /** Of the map every header is shown but those named connection in any case, in order. */
  lemma ShownExactly(hs: seq<Header>, i: nat)
    requires i <= |hs|
    ensures Shown(hs) == Shown(hs[..i]) + Shown(hs[i..])
    ensures i < |hs| ==> Shown(hs[i..i + 1]) == if SameName(hs[i].name, "connection") then [] else [hs[i]]
  {
    hide SameName, Shown;
    ShownOfBoth(hs[..i], hs[i..]);
    assert hs[..i] + hs[i..] == hs;
    if i < |hs| {
      var one := hs[i..i + 1];
      assert one[1..] == [] && one[0] == hs[i];
      ShownSteps(one);
      ShownSteps([]);
    }
  }

  /** The header whose name is passed over: these ten letters, each in either case. */
  lemma ConnectionNames(name: string)
    ensures SameName(name, "connection") <==>
      |name| == 10 && forall i :: 0 <= i < 10 ==> name[i] == "connection"[i] || name[i] == "CONNECTION"[i]
  {
    var low, up := "connection", "CONNECTION";
    forall i | 0 <= i < |name| && |name| == 10
      ensures Lower(name[i]) == Lower(low[i]) <==> name[i] == low[i] || name[i] == up[i]
    {
      assert 'a' <= low[i] <= 'z' && up[i] as int == low[i] as int - 32;
    }
  }

  /** One more header is one more line: name, colon and value as they are. */
  lemma {:induction false} LinesAppend(hs: seq<Header>, h: Header)
    ensures HeaderLines([]) == ""
    ensures HeaderLines(hs + [h]) == HeaderLines(hs) + (h.name + ":" + h.value + "\r\n")
    decreases |hs|
  {
    if hs == [] {
      assert (hs + [h])[1..] == [];
      assert HeaderLines([h]) == HeaderLine(h) + "";
    } else {
      assert (hs + [h])[1..] == hs[1..] + [h];
      LinesAppend(hs[1..], h);
    }
  }

  /** The first line of the stream, with the flag's line behind it. */
  function FirstLines(r: Request): string {
    MethodName(r.verb) + " " + r.path + (if r.query == "" then "" else "?" + r.query)
    + (if r.fragment == "" then "" else "#" + r.fragment)
    + " HTTP/" + Decimal(r.version / 16) + "." + Decimal(r.version % 16) + "\r\n"
    + "connection: " + (if r.close then "close" else "keep-alive") + "\r\n"
  }

  lemma FirstLinesText(r: Request)
    ensures RequestLine(r) + HeaderLine(Header("connection", if r.close then " close" else " keep-alive")) == FirstLines(r)
  {
    hide MethodName, Decimal;
    assert "connection" + ":" + " close" == "connection: " + "close";
    assert "connection" + ":" + " keep-alive" == "connection: " + "keep-alive";
  }

  /** What goes over the wire, from the first byte to the last. */
  lemma WireText(r: Request)
    ensures Printed(r) == FirstLines(r) + HeaderLines(Shown(r.headers))
      + (if r.body == "" then "\r\n" else "content-length: " + Decimal(|r.body|) + "\r\n\r\n" + r.body)
  {
    hide MethodName, Decimal, RequestLine, HeaderLines, Shown, FirstLines;
    FirstLinesText(r);
    var flag := Header("connection", if r.close then " close" else " keep-alive");
    var shown, digits := Shown(r.headers), Decimal(|r.body|);
    var length := Header("content-length", " " + digits);
    LinesAppend(shown, length);
    assert HeaderLine(length) == "content-length: " + digits + "\r\n" by {
      assert "content-length" + ":" + (" " + digits) == "content-length: " + digits;
    }
    var line, first, lines := RequestLine(r), HeaderLine(flag), HeaderLines(shown);
    LinesCons(flag, shown);
    LinesCons(flag, shown + [length]);
    if r.body == "" {
      assert Fields(r) == [flag] + shown;
      assert line + (first + lines) + "\r\n" + r.body == line + first + lines + "\r\n";
    } else {
      assert Fields(r) == [flag] + (shown + [length]);
      assert line + (first + (lines + ("content-length: " + digits + "\r\n"))) + "\r\n" + r.body
          == line + first + lines + ("content-length: " + digits + "\r\n\r\n" + r.body);
    }
  }

  lemma LinesCons(h: Header, hs: seq<Header>)
    ensures HeaderLines([h] + hs) == HeaderLine(h) + HeaderLines(hs)
  {
    assert ([h] + hs)[1..] == hs;
  }

  /** Printing a legal request and parsing it tells the callbacks what was printed and finds the body. */
  lemma RequestRoundTrip(r: Request, relaxed: bool)
    requires Legal(r, relaxed)
    ensures var n := Run(START, Printed(r), relaxed);
      n.stop.Finished? && n.events == Told(r) && n.cs == 348 && n.bodyStart == n.p == |Printed(r)| - |r.body|
  {
    hide Run, Step, LegalVerb, LegalPath, Escaped, LegalHeader, RequestLine, HeaderLines, Fields, FieldEvents, LineEvents;
    var buf := Printed(r);
    var lines := HeaderLines(Fields(r));
    var end := "\r\n" + r.body;
    assert buf[0..] == RequestLine(r) + (lines + end);
    var n := LineStage(START, buf, relaxed, r, lines + end);
    FieldsLegal(r, relaxed);
    n := HeadersStage(n, buf, relaxed, Fields(r), end);
    n := EndStage(n, buf, relaxed, r.body);
  }

  /** The names the parser takes as methods are all but one. */
  lemma VerbsLegal(id: nat)
    ensures LegalVerb(MethodName(id)) <==> id < |METHOD_NAMES| && id != 24
  {
    var s := MethodName(id);
    if id == 24 {
      assert s[1] == '-' && s[1] in s;
    } else if id >= |METHOD_NAMES| {
      assert s[0] == '<' && s[0] in s;
    }
  }

  /** The bytes that the table takes, by code: method names, escapes, paths, queries and fragments, names and values. */
  lemma TableBytes(c: char, relaxed: bool)
    ensures var b := c as int;
      && (Upper(c) <==> 48 <= b <= 57 || 65 <= b <= 90)
      && (Hex(c) <==> 48 <= b <= 57 || 65 <= b <= 70 || 97 <= b <= 102)
      && (Plain(c, relaxed) <==> b == 33 || b == 36 || 38 <= b <= 59 || b == 61 || 64 <= b <= 90 || b == 95 || 97 <= b <= 122
                                 || b == 126 || b >= 128 || (relaxed && (b == 94 || b == 123 || b == 125)))
      && (QueryChar(c, relaxed) <==> b == 63 || Plain(c, relaxed))
      && (Blank(c) <==> b == 9 || b == 32)
    ensures var b := c as int;
      && (NameChar(c) <==> 1 <= b <= 8 || 10 <= b <= 31 || b == 33 || 35 <= b <= 39 || 42 <= b <= 43 || 45 <= b <= 46
                           || 48 <= b <= 57 || 65 <= b <= 90 || 94 <= b <= 122 || b == 124 || b == 126)
      && (NameStart(c) <==> NameChar(c) && b != 10 && b != 13)
      && (ValueChar(c) <==> b != 0 && b != 10 && b != 13 && b != 127)
  {
    assert forall d :: d in "\"#%<>?[\\]`|" <==> d in ['"', '#', '%', '<', '>', '?', '[', '\\', ']', '`', '|'];
  }

  // ---- how a run ends ----

  /** The states whose bytes the model knows. */
  predicate Modelled(cs: nat) {
    1 <= cs <= 18 || 20 <= cs <= 23 || 26 <= cs <= 33 || 175 <= cs <= 193
  }

  /** Where the model ends: at the request's first byte, the target's first byte and a second slash behind that. */
  predicate LeavesAt(cs: nat, c: char, relaxed: bool) {
    || (cs == 1 && c in "<@")
    || (cs == 33 && c == '/')
    || (cs == 3 && (c == '%' || 'A' <= c <= 'Z' || 'a' <= c <= 'z' || c in "!;=@_~" || (c in "^{}" && relaxed)
                    || ('$' <= c <= '9' && c != '/')))
  }

  /** The state, not modelled, that is then gone to. */
  function LeavesTo(cs: nat, c: char): nat {
    if cs == 1 then (if c == '<' then 194 else 198)
    else if cs == 33 then 34
    else if c == '%' then 24
    else if 'A' <= c <= 'Z' || 'a' <= c <= 'z' then 173
    else 19
  }

  lemma StepLeaves(m: Machine, buf: string, relaxed: bool)
    requires Sane(m) && m.p < |buf| && m.stop.Running? && Modelled(m.cs)
    ensures Step(m, buf, relaxed).stop.Left? <==> LeavesAt(m.cs, buf[m.p], relaxed)
    ensures Step(m, buf, relaxed).stop.Left? ==> Step(m, buf, relaxed).cs == LeavesTo(m.cs, buf[m.p])
  {
    hide Plain, QueryChar, NameChar, ValueChar, Hex, Upper, Expected, Marked;
  }

  /** The bytes that a state takes, those that leave the model included. */
  predicate Takes(cs: nat, c: char, relaxed: bool)
    requires Modelled(cs)
  {
    if cs == 1 then Upper(c) || c in "<@"
    else if cs == 2 || cs >= 175 then c == ' ' || (Upper(c) && cs != 193)
    else if cs == 3 then c in " #/?" || LeavesAt(cs, c, relaxed)
    else if cs == 26 || cs == 33 then c in " #?%" || Plain(c, relaxed)
    else if cs == 29 || cs == 30 then c in " #%" || QueryChar(c, relaxed)
    else if cs == 20 || cs == 21 then c in " %" || QueryChar(c, relaxed)
    else if cs >= 22 then Hex(c)
    else if cs <= 10 then c == "HTTP/1."[cs - 4]
    else if cs == 11 then c in "01"
    else if cs == 12 then c in "\r\n"
    else if cs == 13 then c in "\r\n" || NameChar(c)
    else if cs == 14 then c == ':' || NameChar(c)
    else if cs == 15 || cs == 16 then c in "\r\n" || ValueChar(c)
    else if cs == 17 then c == '\n'
    else c in "\n:" || NameChar(c)
  }

  /** A byte leads to the error state exactly when the state does not take it. */
  lemma StepFails(m: Machine, buf: string, relaxed: bool)
    requires Sane(m) && m.p < |buf| && m.stop.Running? && Modelled(m.cs)
    ensures Step(m, buf, relaxed).stop.Failed? <==> !Takes(m.cs, buf[m.p], relaxed)
  {
    assert Plain('/', relaxed) && (Blank(buf[m.p]) ==> ValueChar(buf[m.p]));
    hide Plain, QueryChar, NameChar, ValueChar, Hex, Upper, Marked, Blank, Tell, TellTarget, TellQuery, TellField;
  }

  lemma StepStays(m: Machine, buf: string, relaxed: bool)
    requires Sane(m) && m.p < |buf| && m.stop.Running? && Modelled(m.cs)
    ensures Step(m, buf, relaxed).stop.Running? ==> Modelled(Step(m, buf, relaxed).cs)
  {
    hide Plain, QueryChar, NameChar, ValueChar, Hex, Upper, Expected, Marked;
  }

  lemma StepEnds(m: Machine, buf: string, relaxed: bool)
    requires Sane(m) && m.p < |buf| && m.stop.Running? && Modelled(m.cs)
    ensures var n := Step(m, buf, relaxed);
      && (n.stop.Left? ==> n.p == m.p + 1 && n.events == m.events)
      && (n.stop.Failed? ==> n.cs == 0 && n.p == m.p && n.events == m.events)
      && (n.stop.Finished? ==> n.cs == 348 && n.bodyStart == n.p && n.events == m.events + [HeaderDone(|buf| - n.p)])
  {
    hide Plain, QueryChar, NameChar, ValueChar, Hex, Upper, Expected, Blank, Marked;
  }

  /** A line feed alone ends the version, a header value and the headers just as it does behind a carriage return. */
  lemma LineFeedAlone(m: Machine, buf: string, relaxed: bool)
    requires Sane(m) && m.p < |buf| && m.stop.Running? && buf[m.p] == '\n' && 12 <= m.cs <= 18 && m.cs != 14
    ensures var n := Step(m, buf, relaxed);
      if m.cs == 13 || m.cs == 18 then
        n.stop.Finished? && n.p == m.p + 1 && n.events == m.events + [HeaderDone(|buf| - n.p)]
      else
        n.stop.Running? && n.cs == 13 && n.p == m.p + 1 && n.events == m.events + match m.cs
          case 12 => [Version(buf[m.mark..m.p])]
          case 15 => [Field(buf[m.fieldStart..m.fieldStart + m.fieldLen], "")]
          case 16 => [Field(buf[m.fieldStart..m.fieldStart + m.fieldLen], buf[m.mark..m.p])]
          case _ => []
  {
    hide OnMethod, OnTarget, OnPath, OnQuery, OnFragment, OnEscape, OnName, NameChar, ValueChar, Blank, Expected;
    assert m.events + [] == m.events && buf[m.p..m.p] == "";
  }

  /** What a run that is over looks like. */
  predicate Ended(n: Machine, buf: string) {
    match n.stop
    case Running => n.p == |buf| && Modelled(n.cs)
    case Left => 0 < n.p <= |buf|
    case Failed => n.cs == 0 && n.p < |buf|
    case Finished =>
      && n.cs == 348 && n.bodyStart == n.p <= |buf|
      && n.events != [] && n.events[|n.events| - 1] == HeaderDone(|buf| - n.p)
  }

  /** `at` stands in a modelled state before the last byte of the run from `m`; what that byte is says if the run leaves. */
  predicate LastByte(m: Machine, buf: string, relaxed: bool, at: Machine)
    requires Sane(m) && m.p < |buf|
  {
    && Sane(at) && m.p <= at.p < |buf| && at.stop.Running? && Modelled(at.cs)
    && Run(m, buf, relaxed) == Step(at, buf, relaxed)
    && (Run(m, buf, relaxed).stop.Left? <==> LeavesAt(at.cs, buf[at.p], relaxed))
  }

  /** A run ends with the buffer, at a byte that leaves the model, in the error state or behind the headers. */
  lemma {:induction false} RunEnds(m: Machine, buf: string, relaxed: bool) returns (at: Machine)
    requires Sane(m) && m.p <= |buf| && m.stop.Running? && Modelled(m.cs)
    ensures Ended(Run(m, buf, relaxed), buf)
    ensures m.p < |buf| ==> LastByte(m, buf, relaxed, at)
    decreases |buf| - m.p
  {
    hide Step, LeavesAt, Modelled;
    at := m;
    if m.p < |buf| {
      StepLeaves(m, buf, relaxed);
      StepStays(m, buf, relaxed);
      StepEnds(m, buf, relaxed);
      var n := Step(m, buf, relaxed);
      if n.stop.Running? && n.p < |buf| { at := RunEnds(n, buf, relaxed); }
    }
  }

  /** What http_parser_execute asserts when it returns. */
  predicate Bounds(m: Machine, buf: string) {
    m.mark < |buf| && m.fieldStart < |buf| && m.fieldLen <= |buf| && m.bodyStart <= |buf|
  }

  lemma StepBounds(m: Machine, buf: string, relaxed: bool)
    requires Sane(m) && m.p < |buf| && m.stop.Running? && Bounds(m, buf)
    ensures Bounds(Step(m, buf, relaxed), buf)
  {
    hide OnMethod, OnTarget, OnPath, OnQuery, OnFragment, OnEscape, OnVersion, OnLine, OnName, OnValue;
  }

  lemma {:induction false} BoundsKept(m: Machine, buf: string, relaxed: bool)
    requires Sane(m) && m.p <= |buf| && Bounds(m, buf)
    ensures Bounds(Run(m, buf, relaxed), buf) && Run(m, buf, relaxed).p <= |buf|
    decreases |buf| - m.p, m.stop.Running?
  {
    hide Step, Bounds;
    if m.p < |buf| && m.stop.Running? {
      StepBounds(m, buf, relaxed);
      BoundsKept(Step(m, buf, relaxed), buf, relaxed);
    }
  }

  /** They hold for every buffer whose bytes do not lead out of the modelled states. */
  lemma AssertionsHold(m: Machine, buf: string, relaxed: bool)
    requires Sane(m) && m.p <= |buf| && Bounds(m, buf)
    ensures var n := Run(m, buf, relaxed); n.stop.Left? || (Bounds(n, buf) && m.p <= n.p <= |buf|)
  {
    BoundsKept(m, buf, relaxed);
  }
}
