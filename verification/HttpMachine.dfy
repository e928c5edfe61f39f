/**
 Printed HTTP requests and the generated state machine that parses them. Characters stand for bytes; the table is
 modelled with its own state numbers as far as requests in origin form go (1-18, 20-23, 26-33, 175-193 and 348).
 A step to any other state leaves the model.
 */
module HttpMachine {
  import opened Numerals

  // ---- printing ----

  /** The names of the methods, by number. */
  const METHOD_NAMES: seq<string> := [
    "DELETE", "GET", "HEAD", "POST", "PUT", "CONNECT", "OPTIONS", "TRACE", "COPY", "LOCK", "MKCOL", "MOVE",
    "PROPFIND", "PROPPATCH", "SEARCH", "UNLOCK", "BIND", "REBIND", "UNBIND", "ACL", "REPORT", "MKACTIVITY",
    "CHECKOUT", "MERGE", "M-SEARCH", "NOTIFY", "SUBSCRIBE", "UNSUBSCRIBE", "PATCH", "PURGE", "MKCALENDAR", "LINK",
    "UNLINK", "SOURCE"]

  function MethodName(id: nat): string {
    if id >= |METHOD_NAMES| then "<unknown>" else METHOD_NAMES[id]
  }

  datatype Header = Header(name: string, value: string)

  /** The headers are listed in the order of the map. */
  datatype Request = Request(verb: nat, version: nat, close: bool, path: string, query: string, fragment: string,
                             headers: seq<Header>, body: string)

  function Lower(c: char): char {
    if 'A' <= c <= 'Z' then c - 'A' + 'a' else c
  }

  /** strcasecmp is zero. */
  predicate SameName(a: string, b: string) {
    |a| == |b| && forall i :: 0 <= i < |a| ==> Lower(a[i]) == Lower(b[i])
  }

  function Target(r: Request): string {
    r.path + (if r.query == "" then "" else "?" + r.query) + (if r.fragment == "" then "" else "#" + r.fragment)
  }

  function RequestLine(r: Request): string {
    MethodName(r.verb) + " " + Target(r) + " HTTP/" + Decimal(r.version / 16) + "." + Decimal(r.version % 16) + "\r\n"
  }

  function HeaderLine(h: Header): string {
    h.name + ":" + h.value + "\r\n"
  }

  /** The header lines: the connection header is written first, from the flag, and left out of the map's. */
  function Shown(hs: seq<Header>): seq<Header> {
    if hs == [] then [] else (if SameName(hs[0].name, "connection") then [] else [hs[0]]) + Shown(hs[1..])
  }

  function Fields(r: Request): seq<Header> {
    [Header("connection", if r.close then " close" else " keep-alive")] + Shown(r.headers)
    + (if r.body == "" then [] else [Header("content-length", " " + Decimal(|r.body|))])
  }

  function HeaderLines(hs: seq<Header>): string {
    if hs == [] then "" else HeaderLine(hs[0]) + HeaderLines(hs[1..])
  }

  function Printed(r: Request): string {
    RequestLine(r) + HeaderLines(Fields(r)) + "\r\n" + r.body
  }

  // ---- the machine ----

  /** What the callbacks are told. */
  datatype Event = Method(text: string) | Path(text: string) | Uri(text: string) | Query(text: string)
    | Fragment(text: string) | Version(text: string) | Field(name: string, value: string) | HeaderDone(rest: nat)

  /** Why a run is over: it left the modelled states, met a byte it does not take, or saw the end of the headers. */
  datatype Stop = Running | Left | Failed | Finished

  datatype Machine = Machine(cs: nat, p: nat, mark: nat, fieldStart: nat, fieldLen: nat, queryStart: nat,
                             bodyStart: nat, events: seq<Event>, stop: Stop)

  const START := Machine(1, 0, 0, 0, 0, 0, 0, [], Running)

  predicate Upper(c: char) {
    'A' <= c <= 'Z' || '0' <= c <= '9'
  }

  predicate Hex(c: char) {
    '0' <= c <= '9' || 'A' <= c <= 'F' || 'a' <= c <= 'f'
  }

  /** A byte of a path as it stands; braces and the caret only if the parser is relaxed. */
  predicate Plain(c: char, relaxed: bool) {
    c > ' ' && c != 127 as char && c !in "\"#%<>?[\\]`|" && (c in "^{}" ==> relaxed)
  }

  predicate QueryChar(c: char, relaxed: bool) {
    c == '?' || Plain(c, relaxed)
  }

  /** A byte of a header name; inside a name line ends are accepted too. */
  predicate NameChar(c: char) {
    || 1 as char <= c <= 8 as char || 10 as char <= c <= 31 as char || c == '!' || '#' <= c <= '\'' || c == '*' || c == '+'
    || c == '-' || c == '.' || '0' <= c <= '9' || 'A' <= c <= 'Z' || '^' <= c <= 'z' || c == '|' || c == '~'
  }

  predicate NameStart(c: char) {
    NameChar(c) && c != '\n' && c != '\r'
  }

  predicate ValueChar(c: char) {
    c != 0 as char && c != 127 as char && c != '\n' && c != '\r'
  }

  predicate Blank(c: char) {
    c == ' ' || c == '\t'
  }

  /** The positions lie behind the read pointer, so the lengths that the actions compute are not negative. */
  predicate Sane(m: Machine) {
    && m.mark <= m.p && m.fieldStart <= m.p && m.queryStart <= m.p && m.bodyStart <= m.p
    && (m.cs == 15 || m.cs == 16 ==> m.fieldStart + m.fieldLen <= m.p)
  }

  /** One step on: the next byte unless the machine stopped; the actions set positions to the byte just read. */
  predicate Follows(m: Machine, n: Machine, buf: string) {
    && Sane(n) && m.p <= n.p <= |buf| && (n.stop.Running? ==> n.p == m.p + 1)
    && (n.mark == m.mark || n.mark == m.p) && (n.fieldStart == m.fieldStart || n.fieldStart == m.p)
    && (n.fieldLen == m.fieldLen || n.fieldLen <= m.p)
  }

  // ---- actions ----

  function Go(m: Machine, cs: nat): Machine {
    m.(cs := cs, p := m.p + 1)
  }

  /** To a state that is not modelled. */
  function Leave(m: Machine, cs: nat): Machine {
    m.(cs := cs, p := m.p + 1, stop := Left)
  }

  /** The error state does not take the byte. */
  function Fail(m: Machine): Machine {
    m.(cs := 0, stop := Failed)
  }

  function Mark(m: Machine): Machine {
    m.(mark := m.p)
  }

  function StartField(m: Machine): Machine {
    m.(fieldStart := m.p)
  }

  function StartQuery(m: Machine): Machine {
    m.(queryStart := m.p)
  }

  function Marked(m: Machine, buf: string): string
    requires m.mark <= m.p <= |buf|
  {
    buf[m.mark..m.p]
  }

  function Tell(m: Machine, e: Event): Machine {
    m.(events := m.events + [e])
  }

  function TellField(m: Machine, buf: string): Machine
    requires m.mark <= m.p <= |buf| && m.fieldStart + m.fieldLen <= m.p
  {
    Tell(m, Field(buf[m.fieldStart..m.fieldStart + m.fieldLen], Marked(m, buf)))
  }

  function TellQuery(m: Machine, buf: string): Machine
    requires m.queryStart <= m.p <= |buf|
  {
    Tell(m, Query(buf[m.queryStart..m.p]))
  }

  function TellTarget(m: Machine, buf: string): Machine
    requires m.mark <= m.p <= |buf|
  {
    Tell(Tell(m, Path(Marked(m, buf))), Uri(Marked(m, buf)))
  }

  /** The end of the headers: the body starts behind this byte. */
  function Finish(m: Machine, buf: string): Machine
    requires m.p < |buf|
  {
    Tell(m, HeaderDone(|buf| - m.p - 1)).(bodyStart := m.p + 1, p := m.p + 1, cs := 348, stop := Finished)
  }

  // ---- transitions ----

  function OnMethod(m: Machine, c: char, buf: string): (next: Machine)
    requires Sane(m) && m.p < |buf| && (m.cs == 2 || 175 <= m.cs <= 193)
    ensures Follows(m, next, buf)
  {
    if c == ' ' then Go(Tell(m, Method(Marked(m, buf))), 3)
    else if Upper(c) && m.cs < 193 then Go(m, if m.cs == 2 then 175 else m.cs + 1)
    else Fail(m)
  }

  /** The target's first byte. */
  function OnTarget(m: Machine, c: char, buf: string, relaxed: bool): (next: Machine)
    requires Sane(m) && m.p < |buf|
    ensures Follows(m, next, buf)
  {
    var n := Mark(m);
    if c == ' ' then Go(TellTarget(n, buf), 4)
    else if c == '#' then Go(TellTarget(n, buf), 20)
    else if c == '?' then Go(Tell(n, Path(Marked(n, buf))), 29)
    else if c == '/' then Go(n, 33)
    else if c == '%' then Leave(n, 24)
    else if 'A' <= c <= 'Z' || 'a' <= c <= 'z' then Leave(n, 173)
    else if '$' <= c <= '9' || c in "!;=@_~" || (c in "^{}" && relaxed) then Leave(n, 19)
    else Fail(m)
  }

  /** In the path: 26, and 33 behind the first slash, where another slash would begin an authority. */
  function OnPath(m: Machine, c: char, buf: string, relaxed: bool): (next: Machine)
    requires Sane(m) && m.p < |buf| && (m.cs == 26 || m.cs == 33)
    ensures Follows(m, next, buf)
  {
    if c == ' ' then Go(TellTarget(m, buf), 4)
    else if c == '#' then Go(TellTarget(m, buf), 20)
    else if c == '?' then Go(Tell(m, Path(Marked(m, buf))), 29)
    else if c == '%' then Go(m, 27)
    else if c == '/' && m.cs == 33 then Leave(m, 34)
    else if Plain(c, relaxed) then Go(m, 26)
    else Fail(m)
  }

  /** In the query, 29 being its first byte. */
  function OnQuery(m: Machine, c: char, buf: string, relaxed: bool): (next: Machine)
    requires Sane(m) && m.p < |buf| && (m.cs == 29 || m.cs == 30)
    ensures Follows(m, next, buf)
  {
    var n := if m.cs == 29 then StartQuery(m) else m;
    if c == ' ' || c == '#' then
      var told := TellQuery(n, buf);
      Go(Tell(told, Uri(Marked(told, buf))), if c == ' ' then 4 else 20)
    else if c == '%' then Go(n, 31)
    else if QueryChar(c, relaxed) then Go(n, 30)
    else Fail(m)
  }

  /** In the fragment, 20 being its first byte. */
  function OnFragment(m: Machine, c: char, buf: string, relaxed: bool): (next: Machine)
    requires Sane(m) && m.p < |buf| && (m.cs == 20 || m.cs == 21)
    ensures Follows(m, next, buf)
  {
    var n := if m.cs == 20 then Mark(m) else m;
    if c == ' ' then Go(Tell(n, Fragment(Marked(n, buf))), 4)
    else if c == '%' then Go(n, 22)
    else if QueryChar(c, relaxed) then Go(n, 21)
    else Fail(m)
  }

  /** The two digits of an escape, and the state behind them. */
  function OnEscape(m: Machine, c: char, buf: string): (next: Machine)
    requires Sane(m) && m.p < |buf| && m.cs in {22, 23, 27, 28, 31, 32}
    ensures Follows(m, next, buf)
  {
    if !Hex(c) then Fail(m)
    else Go(m, match m.cs case 22 => 23 case 23 => 21 case 27 => 28 case 28 => 26 case 31 => 32 case _ => 30)
  }

  /** The byte that state 4 to 10 expects. */
  function Expected(cs: nat): char
    requires 4 <= cs <= 10
  {
    "HTTP/1."[cs - 4]
  }

  function OnVersion(m: Machine, c: char, buf: string): (next: Machine)
    requires Sane(m) && m.p < |buf| && 4 <= m.cs <= 12
    ensures Follows(m, next, buf)
  {
    if m.cs <= 10 then
      if c == Expected(m.cs) then Go(if m.cs == 4 then Mark(m) else m, m.cs + 1) else Fail(m)
    else if m.cs == 11 then
      if c == '0' || c == '1' then Go(m, 12) else Fail(m)
    else if c == '\n' then Go(Tell(m, Version(Marked(m, buf))), 13)
    else if c == '\r' then Go(Tell(m, Version(Marked(m, buf))), 17)
    else Fail(m)
  }

  /** The start of a header line, 13, and 18 behind a carriage return there. */
  function OnLine(m: Machine, c: char, buf: string): (next: Machine)
    requires Sane(m) && m.p < |buf| && (m.cs == 13 || m.cs == 18)
    ensures Follows(m, next, buf)
  {
    if m.cs == 13 then
      if c == '\n' then Finish(StartField(m), buf)
      else if c == '\r' then Go(StartField(m), 18)
      else if NameChar(c) then Go(StartField(m), 14)
      else Fail(m)
    else if c == '\n' then Finish(m, buf)
    else OnName(m, c, buf)
  }

  function OnName(m: Machine, c: char, buf: string): (next: Machine)
    requires Sane(m) && m.p < |buf|
    ensures Follows(m, next, buf)
  {
    if c == ':' then Go(m.(fieldLen := m.p - m.fieldStart), 15)
    else if NameChar(c) then Go(m, 14)
    else Fail(m)
  }

  /** The value: blanks before it, 15, move its start. */
  function OnValue(m: Machine, c: char, buf: string): (next: Machine)
    requires Sane(m) && m.p < |buf| && (m.cs == 15 || m.cs == 16)
    ensures Follows(m, next, buf)
  {
    var n := if m.cs == 15 then Mark(m) else m;
    if c == '\n' then Go(TellField(n, buf), 13)
    else if c == '\r' then Go(TellField(n, buf), 17)
    else if m.cs == 15 && Blank(c) then Go(n, 15)
    else if ValueChar(c) then Go(n, 16)
    else Fail(m)
  }

  function Step(m: Machine, buf: string, relaxed: bool): (n: Machine)
    requires Sane(m) && m.p < |buf| && m.stop.Running?
    ensures Follows(m, n, buf)
  {
    var c := buf[m.p];
    if m.cs == 1 then
      if c == '<' then Leave(Mark(m), 194) else if c == '@' then Leave(Mark(m), 198)
      else if Upper(c) then Go(Mark(m), 2) else Fail(m)
    else if m.cs == 2 || 175 <= m.cs <= 193 then OnMethod(m, c, buf)
    else if m.cs == 3 then OnTarget(m, c, buf, relaxed)
    else if m.cs == 26 || m.cs == 33 then OnPath(m, c, buf, relaxed)
    else if m.cs == 29 || m.cs == 30 then OnQuery(m, c, buf, relaxed)
    else if m.cs == 20 || m.cs == 21 then OnFragment(m, c, buf, relaxed)
    else if m.cs in {22, 23, 27, 28, 31, 32} then OnEscape(m, c, buf)
    else if 4 <= m.cs <= 12 then OnVersion(m, c, buf)
    else if m.cs == 13 || m.cs == 18 then OnLine(m, c, buf)
    else if m.cs == 14 then OnName(m, c, buf)
    else if m.cs == 15 || m.cs == 16 then OnValue(m, c, buf)
    else if m.cs == 17 then (if c == '\n' then Go(m, 13) else Fail(m))
    else m.(stop := Left)
  }

  /** To the end of the buffer, an error, the end of the headers or out of the model. */
  function Run(m: Machine, buf: string, relaxed: bool): (n: Machine)
    requires Sane(m) && m.p <= |buf|
    ensures Sane(n) && m.p <= n.p <= |buf|
    decreases |buf| - m.p, m.stop.Running?
  {
    if m.p == |buf| || !m.stop.Running? then m else Run(Step(m, buf, relaxed), buf, relaxed)
  }
}
