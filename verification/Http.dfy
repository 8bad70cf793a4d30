/** The incremental HTTP request parser: request line and headers, fed from a buffer that fills up
    piece by piece. */
module Http {
  import opened Bytes
  import opened Buffers

  datatype Verb = Invalid | Get | Post | Head | Put | Delete
  datatype Version = Unknown | Http10 | Http11
  datatype Phase = ExpectRequestLine | ExpectHeaders | ExpectBody | GotAll

  datatype Request = Request(verb: Verb, version: Version, path: Text, query: Text, headers: map<Text, Text>)

  const FRESH := Request(Invalid, Unknown, [], [], map[])

  // ----- the request line

  function VerbNamed(m: Text): Verb {
    if m == "GET" then Get
    else if m == "POST" then Post
    else if m == "HEAD" then Head
    else if m == "PUT" then Put
    else if m == "DELETE" then Delete
    else Invalid
  }

  function VersionNamed(p: Text): Version {
    if |p| == 8 && p[..7] == "HTTP/1." then
      if p[7] == '1' then Http11 else if p[7] == '0' then Http10 else Unknown
    else Unknown
  }

  /** The target is cut at its first question mark; without one, the query stays as it is. */
  function SetTarget(req: Request, target: Text): Request {
    var question := Find(target, '?');
    if question < |target| then req.(path := target[..question], query := target[question..])
    else req.(path := target)
  }

  /** On failure, the fields set before the fault was noticed stay set. */
  function ProcessRequestLine(req: Request, line: Text): (bool, Request) {
    var space := Find(line, ' ');
    if space == |line| then (false, req)
    else
      var req1 := req.(verb := VerbNamed(line[..space]));
      if req1.verb == Invalid then (false, req1)
      else
        var rest := line[space + 1..];
        var space2 := Find(rest, ' ');
        if space2 == |rest| then (false, req1)
        else
          var req2 := SetTarget(req1, rest[..space2]);
          var version := VersionNamed(rest[space2 + 1..]);
          if version == Unknown then (false, req2) else (true, req2.(version := version))
  }

  function VersionText(v: Version): Text {
    "HTTP/1." + (if v == Http11 then "1" else "0")
  }

  /** The names of the methods, as section 4.1 of RFC 7231 spells them. */
  function VerbText(v: Verb): Text
    requires v != Invalid
  {
    match v
    case Get => "GET"
    case Post => "POST"
    case Head => "HEAD"
    case Put => "PUT"
    case Delete => "DELETE"
  }

  /** A request line of section 3.1.1 of RFC 7230, restricted to the methods and versions known. */
  ghost predicate IsRequestLine(line: Text, verb: Verb, target: Text, version: Version) {
    && verb != Invalid && version != Unknown && ' ' !in target
    && line == VerbText(verb) + [' '] + (target + [' '] + VersionText(version))
  }

  lemma VerbsMatch(m: Text, v: Verb)
    requires v != Invalid
    ensures VerbNamed(m) == v <==> m == VerbText(v)
  {
  }

  lemma NamesHaveNoSpace(v: Verb)
    requires v != Invalid
    ensures ' ' !in VerbText(v)
  {
  }

  lemma VersionsMatch(p: Text, v: Version)
    requires v != Unknown
    ensures VersionNamed(p) == v <==> p == VersionText(v)
  {
    if |p| == 8 {
      assert p == p[..7] + [p[7]];
    }
    var t := VersionText(v);
    assert t[..7] == "HTTP/1.";
  }

  lemma FirstSpace(word: Text, rest: Text)
    requires ' ' !in word
    ensures var s := word + [' '] + rest;
            Find(s, ' ') == |word| && s[..|word|] == word && s[|word| + 1..] == rest
  {
    var s := word + [' '] + rest;
    assert s[..|word|] == word && s[|word| + 1..] == rest;
    FindAt(s, ' ', |word|);
  }

  /** Every well-formed request line is accepted and read correctly; path and query together are the
      target, cut at its first question mark. */
  lemma RequestLineIsRead(req: Request, line: Text, verb: Verb, target: Text, version: Version)
    requires IsRequestLine(line, verb, target, version) && req.query == []
    ensures var (ok, r) := ProcessRequestLine(req, line);
            && ok && r.verb == verb && r.version == version && r.headers == req.headers
            && r.path + r.query == target
            && '?' !in r.path && (r.query == [] || r.query[0] == '?')
  {
    hide VerbNamed, VerbText, VersionNamed, VersionText;
    NamesHaveNoSpace(verb);
    VerbsMatch(VerbText(verb), verb);
    FirstSpace(VerbText(verb), target + [' '] + VersionText(version));
    FirstSpace(target, VersionText(version));
    VersionsMatch(VersionText(version), version);
    TargetIsCut(req.(verb := verb), target);
    hide SetTarget, Find;
  }

  lemma TargetIsCut(req: Request, target: Text)
    requires req.query == []
    ensures var r := SetTarget(req, target);
            && r.verb == req.verb && r.headers == req.headers && r.path + r.query == target
            && '?' !in r.path && (r.query == [] || r.query[0] == '?')
  {
    var q := Find(target, '?');
    assert target == target[..q] + target[q..] && target + [] == target;
  }

  /** And nothing else is accepted. */
  lemma OnlyRequestLinesAreRead(req: Request, line: Text)
    requires ProcessRequestLine(req, line).0
    ensures exists verb, target, version :: IsRequestLine(line, verb, target, version)
  {
    hide VerbNamed, VerbText, VersionNamed, VersionText, SetTarget;
    var space := Find(line, ' ');
    var name, rest := line[..space], line[space + 1..];
    var verb := VerbNamed(name);
    VerbsMatch(name, verb);
    var space2 := Find(rest, ' ');
    var target, protocol := rest[..space2], rest[space2 + 1..];
    VersionsMatch(protocol, VersionNamed(protocol));
    assert rest == target + [' '] + protocol;
    assert line == name + [' '] + rest;
    assert IsRequestLine(line, verb, target, VersionNamed(protocol));
  }

  // ----- headers

  function TrimLeft(s: Text): Text {
    if s != [] && IsSpace(s[0]) then TrimLeft(s[1..]) else s
  }

  function TrimRight(s: Text): Text {
    if s != [] && IsSpace(s[|s| - 1]) then TrimRight(s[..|s| - 1]) else s
  }

  function AddHeader(req: Request, line: Text, colon: nat): Request
    requires colon < |line|
  {
    req.(headers := req.headers[line[..colon] := TrimRight(TrimLeft(line[colon + 1..]))])
  }

  predicate AllSpace(s: Text) {
    forall i :: 0 <= i < |s| ==> IsSpace(s[i])
  }

  lemma {:induction false} TrimLeftSplits(s: Text) returns (pad: Text)
    ensures s == pad + TrimLeft(s) && AllSpace(pad)
    ensures TrimLeft(s) != [] ==> !IsSpace(TrimLeft(s)[0])
  {
    hide IsSpace;
    if s != [] && IsSpace(s[0]) {
      pad := TrimLeftSplits(s[1..]);
      assert s == [s[0]] + s[1..];
      pad := [s[0]] + pad;
    } else {
      pad := [];
    }
  }

  lemma {:induction false} TrimRightSplits(s: Text) returns (pad: Text)
    ensures s == TrimRight(s) + pad && AllSpace(pad)
    ensures TrimRight(s) != [] ==> !IsSpace(TrimRight(s)[|TrimRight(s)| - 1])
  {
    hide IsSpace;
    if s != [] && IsSpace(s[|s| - 1]) {
      pad := TrimRightSplits(s[..|s| - 1]);
      assert s == s[..|s| - 1] + [s[|s| - 1]];
      pad := pad + [s[|s| - 1]];
    } else {
      pad := [];
    }
  }

  /** `value` is `s` without the white space around it. */
  ghost predicate IsTrimmed(s: Text, value: Text) {
    && (value != [] ==> !IsSpace(value[0]) && !IsSpace(value[|value| - 1]))
    && exists before, after :: AllSpace(before) && AllSpace(after) && s == before + value + after
  }

  lemma Trimming(s: Text)
    ensures IsTrimmed(s, TrimRight(TrimLeft(s)))
  {
    var t := TrimLeft(s);
    var before := TrimLeftSplits(s);
    var after := TrimRightSplits(t);
    var value := TrimRight(t);
    hide IsSpace, TrimLeft, TrimRight, AllSpace;
    assert s == before + value + after;
    assert value != [] ==> value[0] == t[0];
  }

  /** A header of section 3.2 of RFC 7230: the stored value is the text after the colon without the
      white space around it, and no other header changes. */
  lemma HeaderValueIsTrimmed(req: Request, line: Text, colon: nat)
    requires colon < |line|
    ensures var r := AddHeader(req, line, colon); var field := line[..colon];
            && field in r.headers && IsTrimmed(line[colon + 1..], r.headers[field])
            && r == req.(headers := req.headers[field := r.headers[field]])
  {
    hide IsTrimmed, TrimLeft, TrimRight;
    Trimming(line[colon + 1..]);
  }

  // ----- the parser

  /** What a call of parseRequest leaves behind. */
  datatype Outcome = Outcome(ok: bool, phase: Phase, request: Request, rest: Text)

  /** Once the parser has failed or has everything, it is not called again. */
  predicate Stopped(o: Outcome) {
    !o.ok || o.phase == GotAll
  }

  predicate CanParse(phase: Phase) {
    phase == ExpectRequestLine || phase == ExpectHeaders
  }

  /** What one complete line does. */
  datatype Turn = Continue(request: Request) | Fail(request: Request) | Done

  function TakeLine(phase: Phase, req: Request, line: Text): Turn
    requires CanParse(phase)
  {
    if phase == ExpectRequestLine then
      var (ok, r) := ProcessRequestLine(req, line);
      if ok then Continue(r) else Fail(r)
    else
      var colon := Find(line, ':');
      if colon < |line| then Continue(AddHeader(req, line, colon)) else Done
  }

  function Parse(phase: Phase, req: Request, s: Text): (o: Outcome)
    requires CanParse(phase)
    ensures !Stopped(o) ==> CanParse(o.phase)
    decreases |s|
  {
    var crlf := FindCRLF(s);
    if crlf < 0 then Outcome(true, phase, req, s)
    else
      match TakeLine(phase, req, s[..crlf])
      case Continue(r) => Parse(ExpectHeaders, r, s[crlf + 2..])
      case Fail(r) => Outcome(false, phase, r, s)
      case Done => Outcome(true, GotAll, req, s[crlf + 2..])
  }

  /** A piece arrives: it joins what is left over, and the parser runs unless it has stopped. */
  function Feed(o: Outcome, piece: Text): Outcome
    requires !Stopped(o) ==> CanParse(o.phase)
  {
    if Stopped(o) then o.(rest := o.rest + piece) else Parse(o.phase, o.request, o.rest + piece)
  }

  function FeedAll(o: Outcome, pieces: seq<Text>): Outcome
    requires !Stopped(o) ==> CanParse(o.phase)
    decreases |pieces|
  {
    if pieces == [] then o else FeedAll(Feed(o, pieces[0]), pieces[1..])
  }

  lemma {:induction false} ParseResumes(phase: Phase, req: Request, s: Text, more: Text)
    requires CanParse(phase)
    ensures Parse(phase, req, s + more) == Feed(Parse(phase, req, s), more)
    decreases |s|
  {
    hide TakeLine, FindCRLF;
    var crlf := FindCRLF(s);
    if crlf >= 0 {
      FindCRLFStable(s, more);
      assert (s + more)[..crlf] == s[..crlf] && (s + more)[crlf + 2..] == s[crlf + 2..] + more;
      var turn := TakeLine(phase, req, s[..crlf]);
      if turn.Continue? {
        ParseResumes(ExpectHeaders, turn.request, s[crlf + 2..], more);
      }
    }
  }

  /** However the bytes are cut into pieces, the verdict, the state, the request and the bytes left
      over are the same as if they had arrived at once. */
  lemma {:induction false} PieceIndependent(phase: Phase, req: Request, s: Text, pieces: seq<Text>)
    requires CanParse(phase)
    ensures FeedAll(Parse(phase, req, s), pieces) == Parse(phase, req, s + Concat(pieces))
    decreases |pieces|
  {
    hide Parse;
    if pieces == [] {
      assert s + Concat(pieces) == s;
    } else {
      ParseResumes(phase, req, s, pieces[0]);
      PieceIndependent(phase, req, s + pieces[0], pieces[1..]);
      assert s + pieces[0] + Concat(pieces[1..]) == s + Concat(pieces);
    }
  }

  /** The parser only ever cuts off the front of what it is given: nothing at all when it fails, and
      every complete line when it waits for more. */
  lemma {:induction false} ParseConsumesPrefix(phase: Phase, req: Request, s: Text)
    requires CanParse(phase)
    ensures var o := Parse(phase, req, s);
            && |o.rest| <= |s| && o.rest == s[|s| - |o.rest|..]
            && (!o.ok ==> phase == o.phase == ExpectRequestLine && o.rest == s)
            && (!Stopped(o) ==> FindCRLF(o.rest) < 0)
    decreases |s|
  {
    hide TakeLine, FindCRLF;
    var crlf := FindCRLF(s);
    if crlf >= 0 {
      var turn := TakeLine(phase, req, s[..crlf]);
      OnlyTheRequestLineFails(phase, req, s[..crlf]);
      if turn.Continue? {
        ParseConsumesPrefix(ExpectHeaders, turn.request, s[crlf + 2..]);
      }
    }
  }

  lemma OnlyTheRequestLineFails(phase: Phase, req: Request, line: Text)
    requires CanParse(phase)
    ensures TakeLine(phase, req, line).Fail? ==> phase == ExpectRequestLine
    ensures TakeLine(phase, req, line).Done? ==> phase == ExpectHeaders
  {
  }

  // ----- whole requests

  /** A header line: the field, a colon, and the value with white space around it. */
  datatype Header = Header(field: Text, before: Text, value: Text, after: Text)

  function HeaderLine(h: Header): Text {
    h.field + [':'] + (h.before + h.value + h.after)
  }

  ghost predicate IsHeader(h: Header) {
    && ':' !in h.field && !HasCRLF(HeaderLine(h)) && AllSpace(h.before) && AllSpace(h.after)
    && (h.value != [] ==> !IsSpace(h.value[0]) && !IsSpace(h.value[|h.value| - 1]))
  }

  function HeaderLines(hs: seq<Header>): Text {
    if hs == [] then [] else HeaderLine(hs[0]) + CRLF + HeaderLines(hs[1..])
  }

  /** What the headers say; of several with the same field, the last. */
  function HeaderMap(m: map<Text, Text>, hs: seq<Header>): map<Text, Text>
    decreases |hs|
  {
    if hs == [] then m else HeaderMap(m[hs[0].field := hs[0].value], hs[1..])
  }

  lemma {:induction false} TrimLeftPad(pad: Text, x: Text)
    requires AllSpace(pad) && (x != [] ==> !IsSpace(x[0]))
    ensures TrimLeft(pad + x) == x
    decreases |pad|
  {
    hide IsSpace;
    if pad == [] {
      assert pad + x == x;
    } else {
      assert (pad + x)[0] == pad[0] && (pad + x)[1..] == pad[1..] + x;
      TrimLeftPad(pad[1..], x);
    }
  }

  lemma {:induction false} TrimRightPad(x: Text, pad: Text)
    requires AllSpace(pad) && (x != [] ==> !IsSpace(x[|x| - 1]))
    ensures TrimRight(x + pad) == x
    decreases |pad|
  {
    hide IsSpace;
    if pad == [] {
      assert x + pad == x;
    } else {
      assert (x + pad)[|x + pad| - 1] == pad[|pad| - 1] && (x + pad)[..|x + pad| - 1] == x + pad[..|pad| - 1];
      TrimRightPad(x, pad[..|pad| - 1]);
    }
  }

  lemma TrimPadded(h: Header)
    requires IsHeader(h)
    ensures TrimRight(TrimLeft(h.before + h.value + h.after)) == h.value
  {
    hide IsSpace, TrimLeft, TrimRight, HasCRLF, HeaderLine;
    if h.value == [] {
      var pad := h.before + h.after;
      assert h.before + h.value + h.after == pad && pad + [] == pad;
      forall i | 0 <= i < |pad| ensures IsSpace(pad[i]) {
        assert pad[i] == if i < |h.before| then h.before[i] else h.after[i - |h.before|];
      }
      TrimLeftPad(pad, []);
      var none: Text := [];
      TrimRightPad(none, none);
      assert none + none == none;
    } else {
      assert h.before + h.value + h.after == h.before + (h.value + h.after);
      assert (h.value + h.after)[0] == h.value[0];
      TrimLeftPad(h.before, h.value + h.after);
      TrimRightPad(h.value, h.after);
    }
  }

  /** The field ends at the first colon of the line, and a line without one ends the headers. */
  lemma HeaderLineIsRead(req: Request, line: Text)
    ensures ':' !in line ==> TakeLine(ExpectHeaders, req, line) == Done
    ensures forall h :: IsHeader(h) && line == HeaderLine(h) ==>
              TakeLine(ExpectHeaders, req, line) == Continue(req.(headers := req.headers[h.field := h.value]))
  {
    if ':' !in line {
      FindAt(line, ':', |line|);
    }
    forall h | IsHeader(h) && line == HeaderLine(h)
      ensures TakeLine(ExpectHeaders, req, line) == Continue(req.(headers := req.headers[h.field := h.value]))
    {
      var colon := |h.field|;
      assert line[..colon] == h.field && line[colon] == ':' && line[colon + 1..] == h.before + h.value + h.after;
      FindAt(line, ':', colon);
      TrimPadded(h);
      hide TrimLeft, TrimRight, IsHeader, Find;
    }
  }

  lemma {:induction false} HeadersAreRead(req: Request, hs: seq<Header>, end: Text, rest: Text)
    requires (forall i :: 0 <= i < |hs| ==> IsHeader(hs[i])) && ':' !in end && !HasCRLF(end)
    ensures Parse(ExpectHeaders, req, HeaderLines(hs) + (end + CRLF + rest)) ==
            Outcome(true, GotAll, req.(headers := HeaderMap(req.headers, hs)), rest)
    decreases |hs|
  {
    if hs == [] {
      var s := end + CRLF + rest;
      assert HeaderLines(hs) + s == s;
      FindCRLFAfter(end, rest);
      assert s[..|end|] == end && s[|end| + 2..] == rest;
      HeaderLineIsRead(req, end);
    } else {
      var line, more := HeaderLine(hs[0]), HeaderLines(hs[1..]) + (end + CRLF + rest);
      var s := line + CRLF + more;
      assert HeaderLines(hs) + (end + CRLF + rest) == s;
      assert IsHeader(hs[0]);
      FindCRLFAfter(line, more);
      assert s[..|line|] == line && s[|line| + 2..] == more;
      HeaderLineIsRead(req, line);
      HeadersAreRead(req.(headers := req.headers[hs[0].field := hs[0].value]), hs[1..], end, rest);
    }
    hide TakeLine, IsHeader, HasCRLF, FindCRLF, HeaderLine;
  }

  /** A whole request is read as it was written, and exactly its bytes are consumed: the method, the target cut at
      its first question mark, the version, and the headers. `end` is the line that ends the headers. */
  lemma RequestRoundTrip(line: Text, verb: Verb, target: Text, version: Version, hs: seq<Header>, end: Text, rest: Text)
    requires IsRequestLine(line, verb, target, version) && !HasCRLF(line)
    requires (forall i :: 0 <= i < |hs| ==> IsHeader(hs[i])) && ':' !in end && !HasCRLF(end)
    ensures var o := Parse(ExpectRequestLine, FRESH, line + CRLF + (HeaderLines(hs) + (end + CRLF + rest)));
            && o.ok && o.phase == GotAll && o.rest == rest
            && o.request.verb == verb && o.request.version == version && o.request.headers == HeaderMap(map[], hs)
            && o.request.path + o.request.query == target
            && '?' !in o.request.path && (o.request.query == [] || o.request.query[0] == '?')
  {
    var more := HeaderLines(hs) + (end + CRLF + rest);
    var s := line + CRLF + more;
    FindCRLFAfter(line, more);
    assert s[..|line|] == line && s[|line| + 2..] == more;
    RequestLineIsRead(FRESH, line, verb, target, version);
    var (ok, req) := ProcessRequestLine(FRESH, line);
    HeadersAreRead(req, hs, end, rest);
    hide ProcessRequestLine, IsRequestLine, HasCRLF, FindCRLF, HeaderLines, IsHeader, HeaderMap;
  }

  // ----- the parser object

  class HttpContext {
    var phase: Phase
    var request: Request

    constructor ()
      ensures phase == ExpectRequestLine && request == FRESH
    {
      phase, request := ExpectRequestLine, FRESH;
    }

    method Reset()
      modifies this
      ensures phase == ExpectRequestLine && request == FRESH
    {
      phase, request := ExpectRequestLine, FRESH;
    }

    /** HttpRequest::addHeader with its two loops. */
    method AddHeaderLine(line: Text, colon: nat)
      requires colon < |line|
      modifies this`request
      ensures request == AddHeader(old(request), line, colon)
    {
      var field := line[..colon];
      var start := colon + 1;
      while start < |line| && IsSpace(line[start])
        invariant colon + 1 <= start <= |line|
        invariant TrimLeft(line[start..]) == TrimLeft(line[colon + 1..])
      {
        assert line[start..][1..] == line[start + 1..];
        start := start + 1;
      }
      var value := line[start..];
      while value != [] && IsSpace(value[|value| - 1])
        invariant TrimRight(value) == TrimRight(TrimLeft(line[colon + 1..]))
        decreases |value|
      {
        value := value[..|value| - 1];
      }
      request := request.(headers := request.headers[field := value]);
    }

    /** The body of parseRequest's loop, for the line that ends at `crlf`. */
    method OnLine(buf: Buffer, crlf: nat) returns (ok: bool, hasMore: bool)
      requires buf.Valid() && CanParse(phase) && IsCRLFAt(buf.Content(), crlf)
      modifies this, buf`readerIndex, buf`writerIndex
      ensures buf.Valid()
      ensures match TakeLine(old(phase), old(request), old(buf.Content())[..crlf])
              case Continue(r) =>
                ok && hasMore && phase == ExpectHeaders && request == r && buf.Content() == old(buf.Content())[crlf + 2..]
              case Fail(r) =>
                !ok && !hasMore && phase == old(phase) && request == r && buf.Content() == old(buf.Content())
              case Done =>
                ok && !hasMore && phase == GotAll && request == old(request) && buf.Content() == old(buf.Content())[crlf + 2..]
    {
      hide ProcessRequestLine, AddHeader;
      var line := buf.Content()[..crlf];
      ok, hasMore := true, true;
      if phase == ExpectRequestLine {
        var r := ProcessRequestLine(request, line);
        ok, request := r.0, r.1;
        if ok {
          buf.Retrieve(crlf + 2);
          phase := ExpectHeaders;
        } else {
          hasMore := false;
        }
      } else {
        var colon := Find(line, ':');
        if colon != crlf {
          AddHeaderLine(line, colon);
        } else {
          phase := GotAll;
          hasMore := false;
        }
        buf.Retrieve(crlf + 2);
      }
    }

    /** parseRequest. Called in kExpectBody or kGotAll the source's loop would never end. Each turn
        that continues consumes a line and its CRLF. */
    method ParseRequest(buf: Buffer) returns (ok: bool)
      requires buf.Valid() && CanParse(phase) && (phase == ExpectRequestLine ==> request.verb == Invalid)
      modifies this, buf`readerIndex, buf`writerIndex
      ensures buf.Valid()
      ensures Outcome(ok, phase, request, buf.Content()) == Parse(old(phase), old(request), old(buf.Content()))
    {
      hide TakeLine;
      ok := true;
      var hasMore := true;
      while hasMore
        invariant buf.Valid()
        invariant hasMore ==> ok && CanParse(phase)
        invariant (if hasMore then Parse(phase, request, buf.Content()) else Outcome(ok, phase, request, buf.Content()))
               == Parse(old(phase), old(request), old(buf.Content()))
        decreases hasMore, buf.ReadableBytes()
      {
        var crlf := FindCRLF(buf.Content());
        if crlf < 0 {
          hasMore := false;
        } else {
          ok, hasMore := OnLine(buf, crlf);
        }
      }
    }
  }
}
