/** The request printer and the parser as they change their state: a stream that grows, fields that are assigned. */
module HttpParser {
  import opened HttpMachine
  import opened Numerals
  import opened HttpRoundTrip

  /** HttpRequest::dump: the request line, the headers, then the length and the body or the empty line. */
  method Dump(r: Request) returns (os: string)
    ensures os == Printed(r)
  {
    os := DumpLine(r);
    ghost var line, fields := os, Start(r);
    os := DumpHeaders(r, os);
    if r.body != "" {
      var h := Header("content-length", " " + Decimal(|r.body|));
      os := os + "content-length: " + Decimal(|r.body|) + "\r\n\r\n" + r.body;
      WithLength(r, line, h);
    } else {
      os := os + "\r\n";
      assert Fields(r) == fields;
      assert os == line + HeaderLines(fields) + "\r\n" + r.body;
    }
  }

  lemma WithLength(r: Request, line: string, h: Header)
    requires r.body != "" && h == Header("content-length", " " + Decimal(|r.body|))
    ensures line + HeaderLines(Start(r)) + "content-length: " + Decimal(|r.body|) + "\r\n\r\n" + r.body
         == line + HeaderLines(Fields(r)) + "\r\n" + r.body
  {
    hide Decimal, HeaderLines, Shown;
    LinesMore(Start(r), h);
    assert Fields(r) == Start(r) + [h];
    LengthLine(Decimal(|r.body|));
    var a, d := line + HeaderLines(Start(r)), Decimal(|r.body|);
    assert a + "content-length: " + d + "\r\n\r\n" == a + ("content-length: " + d + "\r\n\r\n");
    assert a + (HeaderLine(h) + "\r\n") == line + (HeaderLines(Start(r)) + HeaderLine(h)) + "\r\n";
  }

  lemma LengthLine(d: string)
    ensures "content-length: " + d + "\r\n\r\n" == HeaderLine(Header("content-length", " " + d)) + "\r\n"
  {
    assert "content-length: " == "content-length" + ":" + " ";
    assert "\r\n\r\n" == "\r\n" + "\r\n";
  }

  method DumpLine(r: Request) returns (os: string)
    ensures os == RequestLine(r)
  {
    hide Decimal, MethodName;
    os := MethodName(r.verb) + " " + r.path;
    if r.query != "" { os := os + "?" + r.query; }
    if r.fragment != "" { os := os + "#" + r.fragment; }
    assert os == MethodName(r.verb) + " " + Target(r) by {
      assert MethodName(r.verb) + " " + Target(r) == MethodName(r.verb) + " " + r.path
        + (if r.query == "" then "" else "?" + r.query) + (if r.fragment == "" then "" else "#" + r.fragment);
    }
    os := os + " HTTP/" + Decimal(r.version / 16) + "." + Decimal(r.version % 16) + "\r\n";
  }

  /** The connection header, then the loop over the map, which passes its own connection header over. */
  method DumpHeaders(r: Request, line: string) returns (os: string)
    ensures os == line + HeaderLines(Start(r))
  {
    hide Decimal, SameName, HeaderLines, Shown;
    ghost var fields := [Header("connection", if r.close then " close" else " keep-alive")];
    os := line + ("connection:" + (if r.close then " close" else " keep-alive") + "\r\n");
    LinesOfOne(fields);
    var i := 0;
    while i < |r.headers|
      invariant 0 <= i <= |r.headers| && os == line + HeaderLines(fields) && fields + Shown(r.headers[i..]) == Start(r)
    {
      var h := r.headers[i];
      ShownFrom(r.headers, i);
      if !SameName(h.name, "connection") {
        LinesMore(fields, h);
        assert line + HeaderLines(fields + [h]) == os + HeaderLine(h);
        assert fields + ([h] + Shown(r.headers[i + 1..])) == (fields + [h]) + Shown(r.headers[i + 1..]);
        os := os + (h.name + ":" + h.value + "\r\n");
        fields := fields + [h];
      }
      i := i + 1;
    }
    ShownNothing();
    assert r.headers[i..] == [] && fields == Start(r);
  }

  lemma ShownNothing()
    ensures Shown([]) == []
  {
  }

  lemma ShownFrom(hs: seq<Header>, i: nat)
    requires i < |hs|
    ensures Shown(hs[i..]) == (if SameName(hs[i].name, "connection") then [] else [hs[i]]) + Shown(hs[i + 1..])
  {
    assert hs[i..][1..] == hs[i + 1..];
  }

  /** The connection header and those of the map. */
  ghost function Start(r: Request): seq<Header> {
    [Header("connection", if r.close then " close" else " keep-alive")] + Shown(r.headers)
  }

  lemma LinesOfOne(hs: seq<Header>)
    requires |hs| == 1
    ensures HeaderLines(hs) == HeaderLine(hs[0])
  {
    assert HeaderLines(hs[1..]) == "";
  }

  lemma {:induction false} LinesMore(hs: seq<Header>, h: Header)
    ensures HeaderLines(hs + [h]) == HeaderLines(hs) + HeaderLine(h)
    decreases |hs|
  {
    if hs == [] {
      LinesOfOne([h]);
      assert hs + [h] == [h];
    } else {
      LinesMore(hs[1..], h);
      assert (hs + [h])[1..] == hs[1..] + [h];
    }
  }

  class HttpParser {
    var cs: nat
    var mark: nat
    var fieldStart: nat
    var fieldLen: nat
    var queryStart: nat
    var bodyStart: nat
    var nread: nat
    const relaxed: bool
    /** The callbacks made. */
    var events: seq<Event>

    /** http_parser_init. */
    constructor (relaxed: bool)
      ensures cs == 1 && queryStart == bodyStart == 0 && this.relaxed == relaxed
    {
      this.relaxed := relaxed;
      cs, mark, fieldStart, fieldLen, queryStart, bodyStart, nread, events := 1, 0, 0, 0, 0, 0, 0, [];
    }

    ghost function At(p: nat, stop: Stop): Machine
      reads this
    {
      Machine(cs, p, mark, fieldStart, fieldLen, queryStart, bodyStart, events, stop)
    }

    /**
     http_parser_execute on a parser just initialised. Unless the bytes lead out of the modelled states, the fields end
     as the run's, the count is right and what the function asserts on return holds.
     */
    method Execute(buf: string, off: nat) returns (taken: nat)
      requires off <= |buf| && cs == 1 && queryStart == bodyStart == 0
      modifies this
      ensures buf == "" ==> taken == 0 && unchanged(this)
      ensures buf != "" ==>
        (var end := Run(START.(p := off), buf, relaxed);
         end.stop.Left?
         || (end == At(end.p, end.stop) && taken == nread == end.p - off && nread <= |buf| && Bounds(end, buf)))
    {
      if |buf| == 0 { return 0; }
      nread, mark, fieldLen, fieldStart, events := 0, 0, 0, 0, [];
      var p, stop := off, Running;
      AssertionsHold(START.(p := off), buf, relaxed);
      while p < |buf| && stop.Running?
        invariant p <= |buf| && nread == 0 && Sane(At(p, stop))
        invariant Run(At(p, stop), buf, relaxed) == Run(START.(p := off), buf, relaxed)
        decreases |buf| - p, stop.Running?
      {
        p, stop := Advance(buf, p);
      }
      nread := nread + p - off;
      return nread;
    }

    /** States 2 and 175 to 193: the method, at most twenty bytes. */
    method OnMethodByte(buf: string, p: nat, c: char) returns (q: nat, stop: Stop)
      requires p < |buf| && c == buf[p] && Sane(At(p, Running)) && (cs == 2 || 175 <= cs <= 193)
      modifies `cs, `mark, `fieldStart, `fieldLen, `queryStart, `bodyStart, `events
      ensures At(q, stop) == old(OnMethod(At(p, Running), c, buf)) && q <= |buf|
    {
      if c == ' ' {
        events := events + [Method(buf[mark..p])];
        cs := 3;
      } else if Upper(c) && cs < 193 {
        cs := if cs == 2 then 175 else cs + 1;
      } else {
        cs := 0;
        return p, Failed;
      }
      return p + 1, Running;
    }

    /** State 3: the first byte of the target. */
    method OnTargetByte(buf: string, p: nat, c: char) returns (q: nat, stop: Stop)
      requires p < |buf| && c == buf[p] && Sane(At(p, Running))
      modifies `cs, `mark, `fieldStart, `fieldLen, `queryStart, `bodyStart, `events
      ensures At(q, stop) == old(OnTarget(At(p, Running), c, buf, relaxed)) && q <= |buf|
    {
      var from := mark;
      mark := p;
      stop := Running;
      if c == ' ' || c == '#' {
        events := events + [Path(buf[mark..p])];
        events := events + [Uri(buf[mark..p])];
        cs := if c == ' ' then 4 else 20;
      } else if c == '?' {
        events := events + [Path(buf[mark..p])];
        cs := 29;
      } else if c == '/' {
        cs := 33;
      } else if c == '%' {
        cs, stop := 24, Left;
      } else if 'A' <= c <= 'Z' || 'a' <= c <= 'z' {
        cs, stop := 173, Left;
      } else if '$' <= c <= '9' || c in "!;=@_~" || (c in "^{}" && relaxed) {
        cs, stop := 19, Left;
      } else {
        cs, mark := 0, from;
        return p, Failed;
      }
      q := p + 1;
    }

    /** States 26 and 33: the path. */
    method OnPathByte(buf: string, p: nat, c: char) returns (q: nat, stop: Stop)
      requires p < |buf| && c == buf[p] && Sane(At(p, Running)) && (cs == 26 || cs == 33)
      modifies `cs, `mark, `fieldStart, `fieldLen, `queryStart, `bodyStart, `events
      ensures At(q, stop) == old(OnPath(At(p, Running), c, buf, relaxed)) && q <= |buf|
    {
      stop := Running;
      if c == ' ' || c == '#' {
        events := events + [Path(buf[mark..p])];
        events := events + [Uri(buf[mark..p])];
        cs := if c == ' ' then 4 else 20;
      } else if c == '?' {
        events := events + [Path(buf[mark..p])];
        cs := 29;
      } else if c == '%' {
        cs := 27;
      } else if c == '/' && cs == 33 {
        cs, stop := 34, Left;
      } else if Plain(c, relaxed) {
        cs := 26;
      } else {
        cs := 0;
        return p, Failed;
      }
      q := p + 1;
    }

    /** States 29 and 30: the query. */
    method OnQueryByte(buf: string, p: nat, c: char) returns (q: nat, stop: Stop)
      requires p < |buf| && c == buf[p] && Sane(At(p, Running)) && (cs == 29 || cs == 30)
      modifies `cs, `mark, `fieldStart, `fieldLen, `queryStart, `bodyStart, `events
      ensures At(q, stop) == old(OnQuery(At(p, Running), c, buf, relaxed)) && q <= |buf|
    {
      if c != ' ' && c != '#' && c != '%' && !QueryChar(c, relaxed) {
        cs := 0;
        return p, Failed;
      }
      if cs == 29 { queryStart := p; }
      if c == ' ' || c == '#' {
        events := events + [Query(buf[queryStart..p])];
        events := events + [Uri(buf[mark..p])];
        cs := if c == ' ' then 4 else 20;
      } else {
        cs := if c == '%' then 31 else 30;
      }
      return p + 1, Running;
    }

    /** States 20 and 21: the fragment. */
    method OnFragmentByte(buf: string, p: nat, c: char) returns (q: nat, stop: Stop)
      requires p < |buf| && c == buf[p] && Sane(At(p, Running)) && (cs == 20 || cs == 21)
      modifies `cs, `mark, `fieldStart, `fieldLen, `queryStart, `bodyStart, `events
      ensures At(q, stop) == old(OnFragment(At(p, Running), c, buf, relaxed)) && q <= |buf|
    {
      if c != ' ' && c != '%' && !QueryChar(c, relaxed) {
        cs := 0;
        return p, Failed;
      }
      if cs == 20 { mark := p; }
      if c == ' ' {
        events := events + [Fragment(buf[mark..p])];
        cs := 4;
      } else {
        cs := if c == '%' then 22 else 21;
      }
      return p + 1, Running;
    }

    /** The two digits of an escape. */
    method OnEscapeByte(buf: string, p: nat, c: char) returns (q: nat, stop: Stop)
      requires p < |buf| && c == buf[p] && Sane(At(p, Running)) && cs in {22, 23, 27, 28, 31, 32}
      modifies `cs, `mark, `fieldStart, `fieldLen, `queryStart, `bodyStart, `events
      ensures At(q, stop) == old(OnEscape(At(p, Running), c, buf)) && q <= |buf|
    {
      if !Hex(c) {
        cs := 0;
        return p, Failed;
      }
      cs := match cs case 22 => 23 case 23 => 21 case 27 => 28 case 28 => 26 case 31 => 32 case _ => 30;
      return p + 1, Running;
    }

    /** States 4 to 12: the version. */
    method OnVersionByte(buf: string, p: nat, c: char) returns (q: nat, stop: Stop)
      requires p < |buf| && c == buf[p] && Sane(At(p, Running)) && 4 <= cs <= 12
      modifies `cs, `mark, `fieldStart, `fieldLen, `queryStart, `bodyStart, `events
      ensures At(q, stop) == old(OnVersion(At(p, Running), c, buf)) && q <= |buf|
    {
      if cs <= 10 && c == Expected(cs) {
        if cs == 4 { mark := p; }
        cs := cs + 1;
      } else if cs == 11 && (c == '0' || c == '1') {
        cs := 12;
      } else if cs == 12 && (c == '\n' || c == '\r') {
        events := events + [Version(buf[mark..p])];
        cs := if c == '\n' then 13 else 17;
      } else {
        cs := 0;
        return p, Failed;
      }
      return p + 1, Running;
    }

    /** States 13 and 18: the start of a line. */
    method OnLineByte(buf: string, p: nat, c: char) returns (q: nat, stop: Stop)
      requires p < |buf| && c == buf[p] && Sane(At(p, Running)) && (cs == 13 || cs == 18)
      modifies `cs, `mark, `fieldStart, `fieldLen, `queryStart, `bodyStart, `events
      ensures At(q, stop) == old(OnLine(At(p, Running), c, buf)) && q <= |buf|
    {
      if c == '\n' {
        if cs == 13 { fieldStart := p; }
        events := events + [HeaderDone(|buf| - p - 1)];
        bodyStart, cs := p + 1, 348;
        return p + 1, Finished;
      }
      if cs == 18 {
        q, stop := OnNameByte(buf, p, c);
        return;
      }
      if c == '\r' {
        fieldStart, cs := p, 18;
      } else if NameChar(c) {
        fieldStart, cs := p, 14;
      } else {
        cs := 0;
        return p, Failed;
      }
      return p + 1, Running;
    }

    /** State 14: a header's name. */
    method OnNameByte(buf: string, p: nat, c: char) returns (q: nat, stop: Stop)
      requires p < |buf| && c == buf[p] && Sane(At(p, Running))
      modifies `cs, `mark, `fieldStart, `fieldLen, `queryStart, `bodyStart, `events
      ensures At(q, stop) == old(OnName(At(p, Running), c, buf)) && q <= |buf|
    {
      if c == ':' {
        fieldLen, cs := p - fieldStart, 15;
      } else if NameChar(c) {
        cs := 14;
      } else {
        cs := 0;
        return p, Failed;
      }
      return p + 1, Running;
    }

    /** States 15 and 16: a header's value. */
    method OnValueByte(buf: string, p: nat, c: char) returns (q: nat, stop: Stop)
      requires p < |buf| && c == buf[p] && Sane(At(p, Running)) && (cs == 15 || cs == 16)
      modifies `cs, `mark, `fieldStart, `fieldLen, `queryStart, `bodyStart, `events
      ensures At(q, stop) == old(OnValue(At(p, Running), c, buf)) && q <= |buf|
    {
      if c != '\n' && c != '\r' && !ValueChar(c) {
        cs := 0;
        return p, Failed;
      }
      if cs == 15 { mark := p; }
      if c == '\n' || c == '\r' {
        events := events + [Field(buf[fieldStart..fieldStart + fieldLen], buf[mark..p])];
        cs := if c == '\n' then 13 else 17;
      } else if !(cs == 15 && Blank(c)) {
        cs := 16;
      }
      return p + 1, Running;
    }

    /** One byte in whatever state. */
    method Advance(buf: string, p: nat) returns (q: nat, stop: Stop)
      requires p < |buf| && Sane(At(p, Running))
      modifies `cs, `mark, `fieldStart, `fieldLen, `queryStart, `bodyStart, `events
      ensures At(q, stop) == old(Step(At(p, Running), buf, relaxed)) && q <= |buf|
    {
      hide OnMethod, OnTarget, OnPath, OnQuery, OnFragment, OnEscape, OnVersion, OnLine, OnName, OnValue;
      var c := buf[p];
      if cs == 1 {
        if c == '<' || c == '@' {
          mark, cs := p, if c == '<' then 194 else 198;
          return p + 1, Left;
        }
        if !Upper(c) {
          cs := 0;
          return p, Failed;
        }
        mark, cs := p, 2;
        return p + 1, Running;
      }
      if cs == 2 || 175 <= cs <= 193 {
        q, stop := OnMethodByte(buf, p, c);
      } else if cs == 3 {
        q, stop := OnTargetByte(buf, p, c);
      } else if cs == 26 || cs == 33 {
        q, stop := OnPathByte(buf, p, c);
      } else if cs == 29 || cs == 30 {
        q, stop := OnQueryByte(buf, p, c);
      } else if cs == 20 || cs == 21 {
        q, stop := OnFragmentByte(buf, p, c);
      } else if cs in {22, 23, 27, 28, 31, 32} {
        q, stop := OnEscapeByte(buf, p, c);
      } else if 4 <= cs <= 12 {
        q, stop := OnVersionByte(buf, p, c);
      } else if cs == 13 || cs == 18 {
        q, stop := OnLineByte(buf, p, c);
      } else if cs == 14 {
        q, stop := OnNameByte(buf, p, c);
      } else if cs == 15 || cs == 16 {
        q, stop := OnValueByte(buf, p, c);
      } else if cs == 17 && c == '\n' {
        cs := 13;
        return p + 1, Running;
      } else if cs == 17 {
        cs := 0;
        return p, Failed;
      } else {
        return p, Left;
      }
    }
  }

  /** A legal request, printed by one side and parsed by the other. */
  method SendAndParse(r: Request, relaxed: bool) returns (parser: HttpParser, taken: nat)
    requires Legal(r, relaxed)
    ensures parser.events == Told(r) && parser.cs == 348
    ensures taken == parser.bodyStart <= |Printed(r)| && Printed(r)[parser.bodyStart..] == r.body
  {
    parser := new HttpParser(relaxed);
    var os := Dump(r);
    taken := parser.Execute(os, 0);
    RequestRoundTrip(r, relaxed);
  }
}
