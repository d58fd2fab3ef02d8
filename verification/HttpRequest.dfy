/**
 The request parser: lines are read across the blocks of the input buffer, the request line
 and the headers are matched, and what follows the empty line is the body.  Parsing is shown
 to undo printing, whatever the block layout.
 */
module HttpRequest {

  import opened Buffer
  import opened Wrappers
  import U = UrlCodec

  type Fields = map<Bytes, Bytes>

  // ----- Reading a line -----

  /** `LineState`, with the line and the number of bytes so far. */
  datatype Progress =
    | Reading(line: Bytes, used: nat)
    | FoundCr(line: Bytes, used: nat)
    | Done(line: Bytes, used: nat)

  const START := Reading([], 0)

  /** One byte.  A carriage return is dropped, and the byte after it is kept unless it ends the line. */
  function Next(p: Progress, c: char): (q: Progress)
    requires !p.Done?
  {
    match p
    case Reading(line, used) => if c == '\r' then FoundCr(line, used + 1) else Reading(line + [c], used + 1)
    case FoundCr(line, used) => if c == '\n' then Done(line, used + 1) else Reading(line + [c], used + 1)
  }

  /** The automaton over a flat sequence; it stops at the end of the first line. */
  function Run(p: Progress, s: Bytes): (r: Progress)
    ensures p.used <= r.used <= p.used + |s|
    ensures !p.Done? && r.Done? ==> p.used < r.used
    decreases |s|
  {
    if p.Done? || s == [] then p else Run(Next(p, s[0]), s[1..])
  }

  lemma {:induction false} RunInParts(p: Progress, a: Bytes, b: Bytes)
    ensures Run(p, a + b) == Run(Run(p, a), b)
    decreases |a|
  {
    if a == [] {
      assert a + b == b;
    } else if !p.Done? {
      assert (a + b)[1..] == a[1..] + b;
      RunInParts(Next(p, a[0]), a[1..], b);
    }
  }

  lemma {:induction false} RunPlain(p: Progress, a: Bytes)
    requires p.Reading? && '\r' !in a
    ensures Run(p, a) == Reading(p.line + a, p.used + |a|)
    decreases |a|
  {
    if a == [] {
      assert p.line + a == p.line;
    } else {
      RunPlain(Next(p, a[0]), a[1..]);
      assert p.line + a == p.line + [a[0]] + a[1..];
    }
  }

  /** A line that ends is read up to its `\r\n`, which is not part of it. */
  lemma ReadsPrintedLine(line: Bytes, rest: Bytes)
    requires '\r' !in line
    ensures Run(START, line + ['\r', '\n'] + rest) == Done(line, |line| + 2)
  {
    var end: Bytes := ['\r', '\n'];
    RunInParts(START, line + end, rest);
    RunInParts(START, line, end);
    RunPlain(START, line);
    assert end[1..] == ['\n'] && ['\n'][1..] == [];
    assert Run(Reading(line, |line|), end) == Run(FoundCr(line, |line| + 1), ['\n']);
    assert Run(FoundCr(line, |line| + 1), ['\n']) == Run(Done(line, |line| + 2), []);
  }

  /** A carriage return without a line feed is dropped, and the byte after it is kept. */
  lemma LoneCrIsDropped(a: Bytes, c: char, rest: Bytes)
    requires '\r' !in a && c != '\n'
    ensures Run(START, a + ['\r', c] + rest) == Run(Reading(a + [c], |a| + 2), rest)
  {
    var cr: Bytes := ['\r', c];
    RunInParts(START, a + cr, rest);
    RunInParts(START, a, cr);
    RunPlain(START, a);
    assert cr[1..] == [c] && [c][1..] == [];
    assert Run(Reading(a, |a|), cr) == Run(FoundCr(a, |a| + 1), [c]);
    assert Next(FoundCr(a, |a| + 1), c) == Reading(a + [c], |a| + 2);
    assert Run(FoundCr(a, |a| + 1), [c]) == Run(Reading(a + [c], |a| + 2), []);
    assert Run(START, a) == Reading(a, |a|) by { assert [] + a == a; }
  }

  /** What is consumed with a line ends in `\r\n`. */
  lemma {:induction false} LineEndsInCrLf(p: Progress, s: Bytes)
    requires !p.Done? && Run(p, s).Done?
    ensures var n := Run(p, s).used - p.used;
      s[n - 1] == '\n' && if n == 1 then p.FoundCr? else s[n - 2] == '\r'
    decreases |s|
  {
    var q := Next(p, s[0]);
    if !q.Done? {
      LineEndsInCrLf(q, s[1..]);
    }
  }

  /** The inner loop: the bytes of one block. */
  method ReadBlock(data: Bytes, p0: Progress) returns (p: Progress)
    requires !p0.Done?
    ensures p == Run(p0, data)
  {
    p := p0;
    var j := 0;
    assert data[0..] == data;
    while j < |data|
      invariant j <= |data| && !p.Done? && Run(p, data[j..]) == Run(p0, data)
    {
      assert data[j..][1..] == data[j + 1..];
      p := Next(p, data[j]);
      if p.Done? { return; }
      j := j + 1;
    }
    assert data[j..] == [];
  }

  /** `readLine`: only the flat contents matter, and 0 means that they hold no complete line. */
  method ReadLine(buff: BufferBlock) returns (consumed: nat, line: Bytes)
    requires buff.Valid()
    ensures consumed > 0 <==> Run(START, buff.Contents()).Done?
    ensures consumed > 0 ==> Run(START, buff.Contents()) == Done(line, consumed)
  {
    var p := START;
    var i, pos := 0, buff.readPos;
    assert buff.blocks[0..] == buff.blocks;
    while i < |buff.blocks|
      invariant i <= |buff.blocks| && !p.Done?
      invariant pos == if i == 0 then buff.readPos else 0
      invariant pos <= |Flat(buff.blocks[i..])|
      invariant Run(p, Flat(buff.blocks[i..])[pos..]) == Run(START, buff.Contents())
    {
      var data := buff.blocks[i].data;
      FlatFrom(buff.blocks, i);
      assert Flat(buff.blocks[i..])[pos..] == data[pos..] + Flat(buff.blocks[i + 1..]);
      RunInParts(p, data[pos..], Flat(buff.blocks[i + 1..]));
      p := ReadBlock(data[pos..], p);
      if p.Done? {
        return p.used, p.line;
      }
      i, pos := i + 1, 0;
      assert Flat(buff.blocks[i..])[0..] == Flat(buff.blocks[i..]);
    }
    assert buff.blocks[i..] == [];
    return 0, p.line;
  }

  // ----- The patterns for the request line and the headers -----

  datatype Triple = Triple(verb: Bytes, path: Bytes, version: Bytes)

  const HTTP: Bytes := "HTTP/"

  /** Three parts without spaces, the last one after `HTTP/`. */
  function MatchRequestLine(line: Bytes): Option<Triple> {
    var i := U.Before(line, ' ');
    if i == |line| then None else
    var rest := line[i + 1..];
    var j := U.Before(rest, ' ');
    if j == |rest| then None else
    var last := rest[j + 1..];
    if HTTP <= last && ' ' !in last then Some(Triple(line[..i], rest[..j], last[5..])) else None
  }

  function PrintRequestLine(t: Triple): Bytes {
    t.verb + [' '] + (t.path + [' '] + (HTTP + t.version))
  }

  predicate SpaceFree(t: Triple) {
    ' ' !in t.verb && ' ' !in t.path && ' ' !in t.version
  }

  lemma SplitAt(a: Bytes, c: char, b: Bytes)
    requires c !in a
    ensures U.Before(a + [c] + b, c) == |a|
    ensures (a + [c] + b)[..|a|] == a && (a + [c] + b)[|a| + 1..] == b
  {
    assert (a + [c] + b)[..|a|] == a;
    U.BeforeIsUnique(a + [c] + b, c, |a|);
  }

  lemma JoinAt(s: Bytes, c: char)
    requires U.Before(s, c) < |s|
    ensures var i := U.Before(s, c); c !in s[..i] && s == s[..i] + [c] + s[i + 1..]
  {
    hide U.Before;
  }

  /** The pattern of the request line: what matches is exactly what was printed. */
  lemma RequestLinePattern(line: Bytes, t: Triple)
    ensures MatchRequestLine(line) == Some(t) <==>
      && line == t.verb + " " + t.path + " HTTP/" + t.version
      && ' ' !in t.verb && ' ' !in t.path && ' ' !in t.version
  {
    var space: Bytes := " HTTP/";
    assert space == [' '] + HTTP;
    assert PrintRequestLine(t) == t.verb + " " + t.path + " HTTP/" + t.version;
    if MatchRequestLine(line) == Some(t) {
      MatchedIsPrinted(line);
    }
    if line == PrintRequestLine(t) && SpaceFree(t) {
      PrintedIsMatched(t);
    }
  }

  lemma MatchedIsPrinted(line: Bytes)
    requires MatchRequestLine(line).Some?
    ensures var t := MatchRequestLine(line).value; line == PrintRequestLine(t) && SpaceFree(t)
  {
    var i := U.Before(line, ' ');
    var rest := line[i + 1..];
    var j := U.Before(rest, ' ');
    var last := rest[j + 1..];
    JoinAt(line, ' ');
    JoinAt(rest, ' ');
    assert last == HTTP + last[5..];
  }

  lemma LastPart(version: Bytes)
    requires ' ' !in version
    ensures var last := HTTP + version; HTTP <= last && ' ' !in last && last[5..] == version
  {
  }

  lemma PrintedIsMatched(t: Triple)
    requires SpaceFree(t)
    ensures MatchRequestLine(PrintRequestLine(t)) == Some(t)
  {
    hide U.Before;
    var last := HTTP + t.version;
    LastPart(t.version);
    var rest := t.path + [' '] + last;
    SplitAt(t.verb, ' ', rest);
    SplitAt(t.path, ' ', last);
    assert PrintRequestLine(t) == t.verb + [' '] + rest;
  }

  predicate IsNameChar(c: char) {
    'a' <= c <= 'z' || 'A' <= c <= 'Z' || '0' <= c <= '9' || c == '-'
  }

  predicate IsLetterDigitOrHyphen(c: char) {
    c in U.UPPER_CASE || c in U.LOWER_CASE || c in U.DIGITS || c == '-'
  }

  lemma NameAlphabet(c: char)
    ensures IsNameChar(c) <==> IsLetterDigitOrHyphen(c)
  {
    U.InRun(U.UPPER_CASE, 'A', c);
    U.InRun(U.LOWER_CASE, 'a', c);
    U.InRun(U.DIGITS, '0', c);
  }

  predicate IsName(s: Bytes) {
    s != [] && forall k :: 0 <= k < |s| ==> IsNameChar(s[k])
  }

  predicate IsBlank(s: Bytes) {
    forall k :: 0 <= k < |s| ==> U.IsSpace(s[k])
  }

  /** A value as the pattern captures it: on one line and without leading white space. */
  predicate IsValue(s: Bytes) {
    '\r' !in s && '\n' !in s && (s != [] ==> !U.IsSpace(s[0]))
  }

  function SkipBlank(s: Bytes): (n: nat)
    ensures n <= |s| && IsBlank(s[..n]) && (n < |s| ==> !U.IsSpace(s[n]))
  {
    if s == [] || !U.IsSpace(s[0]) then 0
    else
      var n := SkipBlank(s[1..]);
      assert s[..n + 1] == [s[0]] + s[1..][..n];
      n + 1
  }

  datatype Header = Header(name: Bytes, pad: Bytes, value: Bytes)

  function MatchHeader(line: Bytes): Option<Header> {
    var i := U.Before(line, ':');
    if i == |line| || !IsName(line[..i]) then None else
    var rest := line[i + 1..];
    var n := SkipBlank(rest);
    if IsValue(rest[n..]) then Some(Header(line[..i], rest[..n], rest[n..])) else None
  }

  predicate IsHeader(h: Header) {
    IsName(h.name) && IsBlank(h.pad) && IsValue(h.value)
  }

  function PrintHeader(h: Header): Bytes {
    h.name + [':'] + (h.pad + h.value)
  }

  lemma BlankIsSkipped(pad: Bytes, value: Bytes)
    requires IsBlank(pad) && IsValue(value)
    ensures SkipBlank(pad + value) == |pad|
    ensures (pad + value)[..|pad|] == pad && (pad + value)[|pad|..] == value
  {
    var rest := pad + value;
    var n := SkipBlank(rest);
    assert forall k :: 0 <= k < n ==> rest[..n][k] == rest[k];
    assert forall k :: 0 <= k < |pad| ==> rest[k] == pad[k];
    assert value != [] ==> rest[|pad|] == value[0];
  }

  /** The pattern of a header: what matches is exactly what was printed. */
  lemma HeaderPattern(line: Bytes, h: Header)
    ensures MatchHeader(line) == Some(h) <==> line == PrintHeader(h) && IsHeader(h)
  {
    if MatchHeader(line) == Some(h) {
      MatchedHeaderIsPrinted(line);
    }
    if line == PrintHeader(h) && IsHeader(h) {
      PrintedHeaderIsMatched(h);
    }
  }

  /** The parts of a header, and how they are written. */
  lemma HeaderText(h: Header)
    ensures PrintHeader(h) == h.name + ":" + h.pad + h.value
    ensures IsHeader(h) <==>
      && h.name != [] && (forall k :: 0 <= k < |h.name| ==> IsLetterDigitOrHyphen(h.name[k]))
      && (forall k :: 0 <= k < |h.pad| ==> h.pad[k] in U.SPACES)
      && '\r' !in h.value && '\n' !in h.value && (h.value != [] ==> h.value[0] !in U.SPACES)
  {
    hide IsNameChar, IsLetterDigitOrHyphen, U.IsSpace;
    forall c: char
      ensures IsNameChar(c) <==> IsLetterDigitOrHyphen(c)
      ensures U.IsSpace(c) <==> c in U.SPACES
    {
      NameAlphabet(c);
      U.SpaceAlphabet(c);
    }
  }

  lemma MatchedHeaderIsPrinted(line: Bytes)
    requires MatchHeader(line).Some?
    ensures var h := MatchHeader(line).value; line == PrintHeader(h) && IsHeader(h)
  {
    var i := U.Before(line, ':');
    var rest := line[i + 1..];
    var n := SkipBlank(rest);
    JoinAt(line, ':');
    assert rest == rest[..n] + rest[n..];
  }

  lemma PrintedHeaderIsMatched(h: Header)
    requires IsHeader(h)
    ensures MatchHeader(PrintHeader(h)) == Some(h)
  {
    assert ':' !in h.name;
    SplitAt(h.name, ':', h.pad + h.value);
    BlankIsSkipped(h.pad, h.value);
  }

  // ----- The request -----

  datatype State = RequestLine | Headers | Body | Finish

  datatype Request = Request(state: State, verb: Bytes, path: Bytes, version: Bytes,
                             headers: Fields, post: Fields, body: Bytes)

  const FRESH := Request(RequestLine, [], [], [], map[], map[], [])

  const DEFAULT_HTML: set<Bytes> := {"/index", "/register", "/login", "/welcome", "/video", "/picture"}

  /** `ParsePath_`. */
  function PathOf(path: Bytes): Bytes {
    if path == "/" then "/welcome.html"
    else if path in DEFAULT_HTML then path + ".html"
    else path
  }

  /** A page that has its file name keeps it. */
  lemma PathOfIsStable(path: Bytes)
    ensures PathOf(PathOf(path)) == PathOf(path)
    ensures PathOf(path) != "/" && PathOf(path) !in DEFAULT_HTML
  {
    var s := path + ".html";
    assert s[|s| - 1] == 'l' && s[|s| - 5] == '.';
  }

  /** The front page, the six pages that may be asked for without `.html`, and any other path. */
  lemma PathsAreCompleted(path: Bytes)
    ensures PathOf("/") == "/welcome.html"
    ensures PathOf("/index") == "/index.html" && PathOf("/register") == "/register.html"
    ensures PathOf("/login") == "/login.html" && PathOf("/welcome") == "/welcome.html"
    ensures PathOf("/video") == "/video.html" && PathOf("/picture") == "/picture.html"
    ensures IsFinalPath(path, PathOf(path))
  {
  }

  /** final is the path that a request for the given path ends with. */
  predicate IsFinalPath(path: Bytes, final: Bytes) {
    && (path == "/" ==> final == "/welcome.html")
    && (path in PLAIN_PAGES ==> final == path + ".html")
    && (path != "/" && path !in PLAIN_PAGES ==> final == path)
  }

  const PLAIN_PAGES: seq<Bytes> := ["/index", "/register", "/login", "/welcome", "/video", "/picture"]

  function AfterRequestLine(req: Request, line: Bytes): Option<Request> {
    match MatchRequestLine(line)
    case None => None
    case Some(t) => Some(req.(state := Headers, verb := t.verb, path := PathOf(t.path), version := t.version))
  }

  /** `readable` counts the bytes before the line itself is consumed. */
  function AfterHeader(req: Request, line: Bytes, readable: nat): Request {
    var req' := match MatchHeader(line)
      case Some(h) => req.(headers := req.headers[h.name := h.value])
      case None => req.(state := Body);
    if readable <= 2 then req'.(state := Finish) else req'
  }

  predicate Contains(s: Bytes, part: Bytes) {
    part <= s || (s != [] && Contains(s[1..], part))
  }

  /** `find` as the source uses it: the part occurs somewhere. */
  lemma {:induction false} ContainsIff(s: Bytes, part: Bytes)
    ensures Contains(s, part) <==> exists i :: 0 <= i <= |s| && part <= s[i..]
    decreases |s|
  {
    assert s[0..] == s;
    if s != [] && !(part <= s) {
      ContainsIff(s[1..], part);
      assert forall i :: 0 <= i <= |s[1..]| ==> s[1..][i..] == s[i + 1..];
      if i :| 0 <= i <= |s| && part <= s[i..] {
        assert part <= s[1..][i - 1..];
      }
    }
  }

  // ----- Log lines in buffers of fixed size -----

  const LOG_BUFFER: nat := 256

  /** What `%s` prints: the bytes before the first NUL. */
  function CString(s: Bytes): Bytes {
    s[..U.Before(s, '\0')]
  }

  lemma CStringStops(a: Bytes, b: Bytes)
    requires '\0' !in a
    ensures CString(a) == a && CString(a + ['\0'] + b) == a
  {
    U.BeforeIsUnique(a, '\0', |a|);
    SplitAt(a, '\0', b);
  }

  /** What `%d` prints. */
  function Decimal(n: nat): Bytes {
    (if n < 10 then [] else Decimal(n / 10)) + ['0' + (n % 10) as char]
  }

  /** The line that `parse` prints before it returns. */
  function RequestLog(verb: Bytes, path: Bytes, version: Bytes): Bytes {
    "[" + CString(verb) + "], [" + CString(path) + "], [" + CString(version) + "]"
  }

  /** The line that is printed for a body. */
  function BodyLog(body: Bytes): Bytes {
    "Body:" + CString(body) + ", len:" + Decimal(|body|)
  }

  /** `sprintf` stays in the buffer: there is room for the text and its terminating NUL. */
  predicate InBuffer(text: Bytes) {
    |text| + 1 <= LOG_BUFFER
  }

  function Pow10(k: nat): nat {
    if k == 0 then 1 else 10 * Pow10(k - 1)
  }

  lemma {:induction false} DecimalDigits(n: nat, k: nat)
    requires k > 0
    ensures |Decimal(n)| <= k <==> n < Pow10(k)
    decreases k
  {
    if k == 1 {
      assert Pow10(1) == 10 * Pow10(0);
    } else if n >= 10 {
      DecimalDigits(n / 10, k - 1);
    } else {
      PowAtLeast(k);
    }
  }

  lemma {:induction false} PowAtLeast(k: nat)
    requires k > 0
    ensures Pow10(k) >= 10
  {
    if k > 1 { PowAtLeast(k - 1); }
  }

  /** The bound on a request line, and the one on a body. */
  lemma LogFitsIff(verb: Bytes, path: Bytes, version: Bytes, body: Bytes)
    ensures InBuffer(RequestLog(verb, path, version)) <==>
            |CString(verb)| + |CString(path)| + |CString(version)| + 11 <= 256
    ensures InBuffer(BodyLog(body)) <==> |CString(body)| + 11 + |Decimal(|body|)| + 1 <= 256
  {
    hide CString, Decimal;
  }

  /** A body without NUL bytes may have up to 241 bytes. */
  lemma PlainBodyFitsIff(body: Bytes)
    requires '\0' !in body
    ensures InBuffer(BodyLog(body)) <==> |body| <= 241
  {
    U.BeforeIsUnique(body, '\0', |body|);
    assert Pow10(2) == 10 * Pow10(1) == 100 * Pow10(0);
    assert Pow10(3) == 1000;
    DecimalDigits(|body|, 2);
    DecimalDigits(|body|, 3);
  }

  const CONTENT_TYPE: Bytes := "Content-Type"
  const FORM_TYPE: Bytes := "application/x-www-form-urlencoded"
  const JSON_TYPE: Bytes := "application/json"

  /** Looking the content type up stores an empty one if there is none. */
  function WithContentType(headers: Fields): (r: Fields)
    ensures CONTENT_TYPE in r
  {
    if CONTENT_TYPE in headers then headers else headers[CONTENT_TYPE := []]
  }

  predicate IsFormType(headers: Fields) {
    "Content-Type" in headers && headers["Content-Type"] == "application/x-www-form-urlencoded"
  }

  predicate IsDownload(req: Request) {
    Contains(req.path, "/download") && WithContentType(req.headers)[CONTENT_TYPE] == JSON_TYPE
  }

  predicate IsForm(req: Request) {
    Contains(req.verb, "POST") && WithContentType(req.headers)[CONTENT_TYPE] == FORM_TYPE
  }

  /** The paths of `DEFAULT_HTML_TAG`. */
  const ACCOUNT_PAGES: set<Bytes> := {"/register.html", "/login.html"}

  const USERNAME: Bytes := "username"
  const PASSWORD: Bytes := "password"

  /** Looking a field up stores an empty one if there is none. */
  function WithField(post: Fields, key: Bytes): (r: Fields)
    ensures key in r && r.Keys == post.Keys + {key}
    ensures forall k :: k in post ==> r[k] == post[k]
    ensures key !in post ==> r[key] == []
  {
    if key in post then post else post[key := []]
  }

  /** `ParsePost_` for a form: the fields, and on the account pages the two that are looked up. */
  function FormFields(path: Bytes, fields: Fields): Fields {
    if path in ACCOUNT_PAGES then WithField(WithField(fields, USERNAME), PASSWORD) else fields
  }

  /** `ParseBody_`: a form body is parsed; a download body is handed to the JSON library. */
  function AfterBody(req: Request, line: Bytes): Request {
    var post := if IsDownload(req) || !IsForm(req) then req.post
                else FormFields(req.path, if line == [] then req.post else U.ParseFields(map[], line));
    req.(state := Finish, headers := WithContentType(req.headers), post := post, body := line)
  }

  /**
   How a parse ends: with the bytes it leaves, refused after `used` bytes were consumed, or
   with a log line written past its buffer, after which nothing is known.
   */
  datatype Outcome = Complete(req: Request, rest: Bytes) | Refused(req: Request, used: nat) | Overrun

  /** One turn of the loop of `parse`: nothing more can be done, n bytes are consumed, or the log line is too long. */
  datatype Turn = Stop | Go(req: Request, n: nat) | Burst

  function TurnOf(req: Request, s: Bytes): (t: Turn)
    requires s != [] && req.state != Finish
    ensures t.Go? ==> 0 < t.n <= |s|
  {
    var p := Run(START, s);
    if req.state == Body then if InBuffer(BodyLog(s)) then Go(AfterBody(req, s), |s|) else Burst
    else if !p.Done? then Stop
    else if req.state == Headers then Go(AfterHeader(req, p.line, |s|), p.used)
    else if AfterRequestLine(req, p.line).None? then Stop
    else Go(AfterRequestLine(req, p.line).value, p.used)
  }

  function ParseFrom(req: Request, s: Bytes, used: nat): Outcome
    decreases |s|
  {
    if s == [] || req.state == Finish then
      if InBuffer(RequestLog(req.verb, req.path, req.version)) then Complete(req, s) else Overrun
    else
      match TurnOf(req, s)
      case Stop => Refused(req, used)
      case Burst => Overrun
      case Go(req', n) => ParseFrom(req', s[n..], used + n)
  }

  /** What a call of `parse` comes to: true, false, or a log line past its buffer. */
  datatype Verdict = Parsed | Rejected | Overran

  class HttpRequest {
    var state: State
    var verb: Bytes
    var path: Bytes
    var version: Bytes
    var headers: Fields
    var post: Fields
    var body: Bytes

    ghost function Value(): Request
      reads this
    {
      Request(state, verb, path, version, headers, post, body)
    }

    constructor ()
      ensures Value() == FRESH
    {
      state, verb, path, version, headers, post, body := RequestLine, [], [], [], map[], map[], [];
    }

    method Init()
      modifies this
      ensures Value() == FRESH
    {
      state, verb, path, version, headers, post, body := RequestLine, [], [], [], map[], map[], [];
    }

    method ParseRequestLine(line: Bytes) returns (ok: bool)
      modifies this
      ensures ok <==> MatchRequestLine(line).Some?
      ensures ok ==> Value() == old(Value()).(state := Headers, verb := MatchRequestLine(line).value.verb,
                                            path := MatchRequestLine(line).value.path,
                                            version := MatchRequestLine(line).value.version)
      ensures !ok ==> Value() == old(Value())
    {
      match MatchRequestLine(line) {
        case Some(t) =>
          verb, path, version, state := t.verb, t.path, t.version, Headers;
          ok := true;
        case None =>
          ok := false;
      }
    }

    method ParsePath()
      modifies this`path
      ensures path == PathOf(old(path)) && IsFinalPath(old(path), path)
    {
      if path == "/" {
        path := "/welcome.html";
      } else if path in DEFAULT_HTML {
        path := path + ".html";
      }
    }

    method ParseHeader(line: Bytes)
      modifies this
      ensures Value() == AfterHeader(old(Value()), line, 3)
    {
      match MatchHeader(line) {
        case Some(h) => headers := headers[h.name := h.value];
        case None => state := Body;
      }
    }

    /** `ParseBody_`; says whether the log line for the body stays in its buffer. */
    method ParseBody(line: Bytes) returns (fits: bool)
      modifies this
      ensures Value() == AfterBody(old(Value()), line)
      ensures body == line && state == Finish && verb == old(verb) && path == old(path) && version == old(version)
      ensures forall n :: n in old(headers) ==> n in headers && headers[n] == old(headers)[n]
      ensures headers.Keys == old(headers).Keys + {"Content-Type"}
      ensures "Content-Type" !in old(headers) ==> headers["Content-Type"] == []
      ensures headers["Content-Type"] != "application/json" && !(Contains(verb, "POST") && IsFormType(headers)) ==>
        post == old(post)
      ensures fits <==> |CString(line)| + 11 + |Decimal(|line|)| + 1 <= 256
    {
      hide Contains, CString, Decimal, BodyLog, U.ParseFields;
      LogFitsIff([], [], [], line);
      body := line;
      headers := WithContentType(headers);
      if !(Contains(path, "/download") && headers[CONTENT_TYPE] == JSON_TYPE) {
        if Contains(verb, "POST") && headers[CONTENT_TYPE] == FORM_TYPE {
          post := U.ParseFromUrlencoded(line, post);
          if path in ACCOUNT_PAGES {
            post := WithField(post, USERNAME);
            post := WithField(post, PASSWORD);
          }
        }
      }
      state := Finish;
      fits := InBuffer(BodyLog(line));
    }

    /** One line or the whole body; says how many bytes it took, or 0 if the line is not complete. */
    method ParseLine(buff: BufferBlock) returns (consumed: nat, verdict: Verdict)
      requires buff.Valid() && buff.Contents() != [] && state != Finish
      modifies this
      ensures
        match TurnOf(old(Value()), buff.Contents())
        case Stop => (consumed == 0 || verdict == Rejected) && verdict != Overran && Value() == old(Value())
        case Go(req, n) => consumed == n && verdict == Parsed && Value() == req
        case Burst => verdict == Overran && consumed > 0
      ensures verdict == Rejected ==> old(state) == RequestLine
      ensures consumed > 0 && verdict == Parsed ==> state != RequestLine
    {
      hide Run, MatchRequestLine, MatchHeader, BodyLog, CString, Decimal;
      verdict := Parsed;
      if state == Body {
        var line := buff.BufferToString();
        var fits := ParseBody(line);
        LogFitsIff([], [], [], line);
        return |line|, if fits then Parsed else Overran;
      }
      var line;
      consumed, line := ReadLine(buff);
      if consumed == 0 { return; }
      if state == RequestLine {
        var ok := ParseRequestLine(line);
        if ok { ParsePath(); } else { verdict := Rejected; }
      } else {
        ParseHeader(line);
        var readable := buff.ReadableBytes();
        if readable <= 2 { state := Finish; }
      }
    }

    /** A turn of the loop, on the way to outcome o. */
    method Advance(buff: BufferBlock, ghost used: nat, ghost o: Outcome) returns (consumed: nat, verdict: Verdict)
      requires buff.Valid() && buff.Contents() != [] && state != Finish
      requires o == ParseFrom(Value(), buff.Contents(), used)
      modifies this, buff
      ensures buff.Valid() && IsTail(buff.blocks, old(buff.blocks)) && buff.writePos == old(buff.writePos)
      ensures
        if verdict == Overran then o == Overrun && consumed > 0
        else if consumed == 0 || verdict == Rejected then
          o == Refused(Value(), used) && buff.Contents() == old(buff.Contents()) && buff.readPos == old(buff.readPos)
        else
          && o == ParseFrom(Value(), buff.Contents(), used + consumed)
          && consumed + |buff.Contents()| == |old(buff.Contents())| && state != RequestLine
      ensures verdict == Rejected ==> old(state) == RequestLine
    {
      hide TurnOf;
      consumed, verdict := ParseLine(buff);
      if consumed > 0 && verdict == Parsed {
        buff.ConsumeBytes(consumed);
      }
    }

    /** The loop of `parse`, on its way to outcome o; `cut` says that it stopped at a line that is not complete. */
    method ParseLines(buff: BufferBlock, ghost o: Outcome) returns (verdict: Verdict, cut: bool, ghost used: nat)
      requires buff.Valid() && o == ParseFrom(Value(), buff.Contents(), 0)
      modifies this, buff
      ensures verdict == Overran <==> o == Overrun
      ensures verdict != Overran ==>
        && buff.Valid() && used + |buff.Contents()| == |old(buff.Contents())|
        && IsTail(buff.blocks, old(buff.blocks)) && buff.writePos == old(buff.writePos)
        && (used == 0 ==> buff.Contents() == old(buff.Contents()) && buff.readPos == old(buff.readPos))
        && o == if verdict == Parsed then Complete(Value(), buff.Contents()) else Refused(Value(), used)
      ensures verdict == Rejected && !cut ==> used == 0
    {
      hide TurnOf, RequestLog, IsTail;
      used := 0;
      var readable := buff.ReadableBytes();
      TailOfItself(buff.blocks);
      while readable > 0 && state != Finish
        invariant buff.Valid() && readable == |buff.Contents()| && used + readable == |old(buff.Contents())|
        invariant IsTail(buff.blocks, old(buff.blocks)) && buff.writePos == old(buff.writePos)
        invariant used == 0 ==> buff.Contents() == old(buff.Contents()) && buff.readPos == old(buff.readPos)
        invariant used > 0 ==> state != RequestLine
        invariant o == ParseFrom(Value(), buff.Contents(), used)
        decreases readable
      {
        var consumed;
        ghost var blocks := buff.blocks;
        consumed, verdict := Advance(buff, used, o);
        TailOfTail(buff.blocks, blocks, old(buff.blocks));
        if verdict == Overran { return verdict, false, used; }
        if consumed == 0 { return Rejected, true, used; }
        if verdict == Rejected { return verdict, false, used; }
        readable := buff.ReadableBytes();
        used := used + consumed;
      }
      verdict := if InBuffer(RequestLog(verb, path, version)) then Parsed else Overran;
      return verdict, false, used;
    }

    /**
     `parse`.  When it fails, the buffer is as before exactly if no line had been consumed.
     Otherwise only the read position is moved back: blocks that were read are gone, and the
     size is short by what was consumed.
     */
    method Parse(buff: BufferBlock) returns (verdict: Verdict)
      requires buff.Valid()
      modifies this, buff
      ensures old(buff.Contents()) == [] ==>
        verdict == Rejected && Value() == old(Value()) && buff.Valid() && buff.Contents() == []
      ensures old(buff.Contents()) != [] ==>
        match ParseFrom(old(Value()), old(buff.Contents()), 0)
        case Complete(req, rest) => verdict == Parsed && Value() == req && buff.Valid() && buff.Contents() == rest
        case Overrun => verdict == Overran
        case Refused(req, used) =>
          && verdict == Rejected && Value() == req
          && buff.readPos == old(buff.readPos) && buff.writePos == old(buff.writePos)
          && buff.totalSize == |old(buff.Contents())| - used && IsTail(buff.blocks, old(buff.blocks))
          && (buff.Valid() && buff.Contents() == old(buff.Contents()) <==> used == 0)
    {
      hide ParseFrom, IsTail;
      var readable := buff.ReadableBytes();
      if readable <= 0 { return Rejected; }
      var startPos := buff.readPos;
      var cut;
      ghost var used;
      verdict, cut, used := ParseLines(buff, ParseFrom(Value(), buff.Contents(), 0));
      if verdict == Rejected && cut {
        ghost var total := buff.totalSize;
        buff.readPos := startPos;
        assert used > 0 && buff.Valid() ==> |buff.Contents()| == total;
      }
    }
  }

  // ----- Parsing undoes printing -----

  const CRLF: Bytes := ['\r', '\n']

  function PrintHeaders(hs: seq<Header>): Bytes {
    if hs == [] then [] else PrintHeader(hs[0]) + CRLF + PrintHeaders(hs[1..])
  }

  /** A request as section 2.1 of RFC 9112 writes it. */
  function PrintRequest(t: Triple, hs: seq<Header>, body: Bytes): Bytes {
    PrintRequestLine(t) + CRLF + (PrintHeaders(hs) + (CRLF + body))
  }

  predicate Printable(t: Triple, hs: seq<Header>) {
    && SpaceFree(t) && '\r' !in t.verb && '\r' !in t.path && '\r' !in t.version
    && forall k :: 0 <= k < |hs| ==> IsHeader(hs[k]) && '\r' !in hs[k].pad
  }

  /** A later value of a header replaces an earlier one. */
  function LastWins(headers: Fields, hs: seq<Header>): Fields
    decreases |hs|
  {
    if hs == [] then headers else LastWins(headers[hs[0].name := hs[0].value], hs[1..])
  }

  /** A value in the map is the value of the last header of that name. */
  lemma {:induction false} LastWinsIsLast(headers: Fields, hs: seq<Header>, k: nat)
    requires k < |hs| && forall j :: k < j < |hs| ==> hs[j].name != hs[k].name
    ensures hs[k].name in LastWins(headers, hs) && LastWins(headers, hs)[hs[k].name] == hs[k].value
    decreases |hs|
  {
    if k > 0 {
      LastWinsIsLast(headers[hs[0].name := hs[0].value], hs[1..], k - 1);
    } else {
      OtherNamesKeep(headers[hs[0].name := hs[0].value], hs[1..], hs[0].name);
    }
  }

  lemma {:induction false} OtherNamesKeep(headers: Fields, hs: seq<Header>, name: Bytes)
    requires forall j :: 0 <= j < |hs| ==> hs[j].name != name
    ensures name in LastWins(headers, hs) <==> name in headers
    ensures name in headers ==> LastWins(headers, hs)[name] == headers[name]
    decreases |hs|
  {
    if hs != [] {
      OtherNamesKeep(headers[hs[0].name := hs[0].value], hs[1..], name);
    }
  }

  /** The turn for a complete line. */
  lemma TurnAtLine(req: Request, line: Bytes, rest: Bytes, s: Bytes)
    requires s == line + CRLF + rest && '\r' !in line && req.state != Body && req.state != Finish
    requires req.state == RequestLine ==> AfterRequestLine(req, line).Some?
    ensures s != [] && s[|line| + 2..] == rest
    ensures TurnOf(req, s) == Go(if req.state == RequestLine then AfterRequestLine(req, line).value
                                 else AfterHeader(req, line, |s|), |line| + 2)
  {
    hide AfterRequestLine, AfterHeader, AfterBody;
    ReadsPrintedLine(line, rest);
  }

  lemma ParseTurn(req: Request, s: Bytes, used: nat, next: Request, n: nat)
    requires s != [] && req.state != Finish && TurnOf(req, s) == Go(next, n)
    ensures ParseFrom(req, s, used) == ParseFrom(next, s[n..], used + n)
  {
    hide TurnOf;
  }

  lemma HeaderLine(h: Header)
    requires IsHeader(h) && '\r' !in h.pad
    ensures '\r' !in PrintHeader(h) && |PrintHeader(h)| >= 2
  {
  }

  /** The empty line starts the body, or ends the request if nothing follows. */
  lemma ParseBlankLine(req: Request, body: Bytes, used: nat)
    requires req.state == Headers
    ensures ParseFrom(req, CRLF + body, used) ==
      if LogsFit(req.verb, req.path, req.version, body)
      then Complete(if body == [] then req.(state := Finish) else AfterBody(req.(state := Body), body), [])
      else Overrun
  {
    hide AfterBody, RequestLog, BodyLog, CString, Decimal;
    var s := CRLF + body;
    var next := AfterHeader(req, [], |s|);
    assert MatchHeader([]).None?;
    assert s == [] + CRLF + body;
    LogFitsIff(req.verb, req.path, req.version, body);
    TurnAtLine(req, [], body, s);
    ParseTurn(req, s, used, next, 2);
    if body != [] { ParseWholeBody(next, body, used + 2); }
  }

  lemma ParseWholeBody(req: Request, body: Bytes, used: nat)
    requires req.state == Body && body != []
    ensures ParseFrom(req, body, used) ==
      if InBuffer(BodyLog(body)) && InBuffer(RequestLog(req.verb, req.path, req.version))
      then Complete(AfterBody(req, body), []) else Overrun
  {
    hide RequestLog, BodyLog;
    BodyKeepsLine(req, body);
    assert body[|body|..] == [];
    hide AfterBody;
    if InBuffer(BodyLog(body)) {
      ParseTurn(req, body, used, AfterBody(req, body), |body|);
    }
  }

  lemma BodyKeepsLine(req: Request, body: Bytes)
    ensures
      var r := AfterBody(req, body);
      r.state == Finish && r.verb == req.verb && r.path == req.path && r.version == req.version
  {
  }

  lemma ParseHeader(req: Request, h: Header, rest: Bytes, s: Bytes, used: nat)
    requires req.state == Headers && IsHeader(h) && '\r' !in h.pad && |rest| >= 2
    requires s == PrintHeader(h) + CRLF + rest
    ensures ParseFrom(req, s, used) ==
            ParseFrom(req.(headers := req.headers[h.name := h.value]), rest, used + |PrintHeader(h)| + 2)
  {
    hide ParseFrom, TurnOf, IsHeader, MatchHeader, PrintHeader;
    var line := PrintHeader(h);
    HeaderLine(h);
    PrintedHeaderIsMatched(h);
    TurnAtLine(req, line, rest, s);
    ParseTurn(req, s, used, AfterHeader(req, line, |s|), |line| + 2);
  }

  lemma PrintHeadersFirst(hs: seq<Header>, tail: Bytes)
    requires hs != []
    ensures PrintHeaders(hs) + tail == PrintHeader(hs[0]) + CRLF + (PrintHeaders(hs[1..]) + tail)
    ensures |PrintHeaders(hs)| == |PrintHeader(hs[0])| + 2 + |PrintHeaders(hs[1..])|
  {
    hide PrintHeader;
  }

  lemma {:induction false} ParseHeaders(req: Request, hs: seq<Header>, tail: Bytes, used: nat)
    requires req.state == Headers && |tail| >= 2
    requires forall k :: 0 <= k < |hs| ==> IsHeader(hs[k]) && '\r' !in hs[k].pad
    ensures ParseFrom(req, PrintHeaders(hs) + tail, used) ==
            ParseFrom(req.(headers := LastWins(req.headers, hs)), tail, used + |PrintHeaders(hs)|)
    decreases |hs|
  {
    hide ParseFrom, IsHeader, PrintHeader;
    if hs == [] {
      assert PrintHeaders(hs) + tail == tail;
      assert req.(headers := LastWins(req.headers, hs)) == req;
    } else {
      hide PrintHeaders;
      var h, rest := hs[0], PrintHeaders(hs[1..]) + tail;
      var next := req.(headers := req.headers[h.name := h.value]);
      PrintHeadersFirst(hs, tail);
      ParseHeader(req, h, rest, PrintHeader(h) + CRLF + rest, used);
      assert forall k :: 0 <= k < |hs[1..]| ==> hs[1..][k] == hs[k + 1];
      ParseHeaders(next, hs[1..], tail, used + |PrintHeader(h)| + 2);
      assert next.(headers := LastWins(next.headers, hs[1..])) == req.(headers := LastWins(req.headers, hs));
    }
  }

  /** Both log lines have room: the one for the request, and the one for its body if it has one. */
  predicate LogsFit(verb: Bytes, path: Bytes, version: Bytes, body: Bytes) {
    && |CString(verb)| + |CString(path)| + |CString(version)| + 11 <= 256
    && (body != [] ==> |CString(body)| + 11 + |Decimal(|body|)| + 1 <= 256)
  }

  /** The request that a printed message stands for. */
  function Meant(t: Triple, hs: seq<Header>, body: Bytes): Request {
    var req := Request(Headers, t.verb, PathOf(t.path), t.version, LastWins(map[], hs), map[], []);
    if body == [] then req.(state := Finish) else AfterBody(req.(state := Body), body)
  }

  /**
   Parsing undoes printing: the whole buffer is read and every part is recovered, exactly if
   the log lines have room; otherwise one of them is written past its buffer.
   */
  lemma ParsingUndoesPrinting(t: Triple, hs: seq<Header>, body: Bytes)
    requires Printable(t, hs)
    ensures ParseFrom(FRESH, PrintRequest(t, hs, body), 0) ==
      if LogsFit(t.verb, PathOf(t.path), t.version, body) then Complete(Meant(t, hs, body), []) else Overrun
  {
    hide TurnOf, ParseFrom, MatchRequestLine, IsHeader, AfterBody, PathOf, LastWins, LogsFit;
    var line, tail := PrintRequestLine(t), CRLF + body;
    var s := PrintRequest(t, hs, body);
    PrintedIsMatched(t);
    assert '\r' !in line;
    var next := AfterRequestLine(FRESH, line).value;
    TurnAtLine(FRESH, line, PrintHeaders(hs) + tail, s);
    ParseTurn(FRESH, s, 0, next, |line| + 2);
    ParseHeaders(next, hs, tail, |line| + 2);
    ParseBlankLine(next.(headers := LastWins(map[], hs)), body, |line| + 2 + |PrintHeaders(hs)|);
  }

  // ----- What a printed request comes to, part by part -----

  /** The text of a request. */
  lemma PrintedText(t: Triple, hs: seq<Header>, body: Bytes)
    ensures PrintRequest(t, hs, body) ==
      t.verb + " " + t.path + " HTTP/" + t.version + "\r\n" + PrintHeaders(hs) + "\r\n" + body
    ensures hs == [] ==> PrintHeaders(hs) == []
    ensures hs != [] ==>
      PrintHeaders(hs) == hs[0].name + ":" + hs[0].pad + hs[0].value + "\r\n" + PrintHeaders(hs[1..])
  {
    var space: Bytes := " HTTP/";
    assert space == [' '] + HTTP;
  }

  /** The header at k is the last one of its name. */
  predicate IsLast(hs: seq<Header>, k: int) {
    0 <= k < |hs| && forall j :: k < j < |hs| ==> hs[j].name != hs[k].name
  }

  predicate IsNamed(hs: seq<Header>, name: Bytes) {
    exists k :: 0 <= k < |hs| && hs[k].name == name
  }

  /** The last printed value for every name, and with a body at most an empty content type beside them. */
  ghost predicate HeadersOf(headers: Fields, hs: seq<Header>, body: Bytes) {
    && (forall k :: IsLast(hs, k) ==> hs[k].name in headers && headers[hs[k].name] == hs[k].value)
    && (forall n :: n in headers ==>
         IsNamed(hs, n) || (body != [] && n == "Content-Type" && headers[n] == []))
  }

  lemma LastWinsHasAll(hs: seq<Header>)
    ensures HeadersOf(LastWins(map[], hs), hs, [])
  {
    var headers := LastWins(map[], hs);
    forall k | IsLast(hs, k) ensures hs[k].name in headers && headers[hs[k].name] == hs[k].value {
      LastWinsIsLast(map[], hs, k);
    }
    forall n | n in headers ensures IsNamed(hs, n) {
      if !IsNamed(hs, n) { OtherNamesKeep(map[], hs, n); }
    }
  }

  /** A body is kept as it is, and one that is neither a form nor JSON stores no fields. */
  lemma BodyIsKept(req: Request, body: Bytes)
    ensures
      var r := AfterBody(req, body);
      && r.state == Finish && r.verb == req.verb && r.path == req.path && r.version == req.version && r.body == body
      && r.headers.Keys == req.headers.Keys + {"Content-Type"}
      && (forall n :: n in req.headers ==> r.headers[n] == req.headers[n])
      && ("Content-Type" !in req.headers ==> r.headers["Content-Type"] == [])
      && (r.headers["Content-Type"] != "application/json" && !(Contains(req.verb, "POST") && IsFormType(r.headers)) ==>
           r.post == req.post)
  {
  }

  lemma ShortTextsFit(t: Triple, body: Bytes)
    requires |t.verb| + |t.path| + |t.version| <= 233 && '\0' !in body && |body| <= 241
    ensures LogsFit(t.verb, PathOf(t.path), t.version, body)
  {
    hide Decimal;
    assert |PathOf(t.path)| <= |t.path| + 12;
    PlainBodyFitsIff(body);
    LogFitsIff([], [], [], body);
  }

  /**
   What the parse of a printed request ends with, unless a log line is too long: every part
   that was printed, its body too, and nothing else.
   */
  lemma PartsArrive(t: Triple, hs: seq<Header>, body: Bytes)
    requires Printable(t, hs)
    ensures
      var o := ParseFrom(FRESH, PrintRequest(t, hs, body), 0);
      !o.Overrun? ==>
      && o.Complete? && o.rest == [] && o.req.state == Finish
      && o.req.verb == t.verb && IsFinalPath(t.path, o.req.path) && o.req.version == t.version
      && o.req.body == body && HeadersOf(o.req.headers, hs, body)
      && (body != [] ==> "Content-Type" in o.req.headers)
      && (body != [] && o.req.post != map[] ==>
           o.req.headers["Content-Type"] == "application/json"
           || (Contains(t.verb, "POST") && IsFormType(o.req.headers)))
      && (body == [] ==> o.req.post == map[])
    ensures |t.verb| + |t.path| + |t.version| <= 233 && '\0' !in body && |body| <= 241 ==>
      ParseFrom(FRESH, PrintRequest(t, hs, body), 0).Complete?
  {
    hide ParseFrom, PathOf, LastWins, LogsFit, IsLast, IsNamed, Printable, IsFinalPath, Contains, AfterBody;
    ParsingUndoesPrinting(t, hs, body);
    PathsAreCompleted(t.path);
    if |t.verb| + |t.path| + |t.version| <= 233 && '\0' !in body && |body| <= 241 { ShortTextsFit(t, body); }
    LastWinsHasAll(hs);
    BodyIsKept(Request(Body, t.verb, PathOf(t.path), t.version, LastWins(map[], hs), map[], []), body);
  }

  /** A line that is no header starts the body, even if it is not empty. */
  lemma OtherLineStartsBody(req: Request, line: Bytes, rest: Bytes, used: nat)
    requires req.state == Headers && '\r' !in line && line != [] && forall h :: IsHeader(h) ==> line != PrintHeader(h)
    ensures
      var o := ParseFrom(req, line + CRLF + rest, used);
      !o.Overrun? ==>
      && o.Complete? && o.rest == [] && o.req.state == (if rest == [] then Body else Finish)
      && o.req.body == (if rest == [] then req.body else rest)
      && o.req.verb == req.verb && o.req.path == req.path && o.req.version == req.version
    ensures ParseFrom(req, line + CRLF + rest, used).Complete? <==> LogsFit(req.verb, req.path, req.version, rest)
  {
    hide IsHeader, PrintHeader, RequestLog, BodyLog, CString, Decimal, AfterBody, MatchHeader, TurnOf;
    var s, next := line + CRLF + rest, req.(state := Body);
    assert MatchHeader(line).None? by {
      if MatchHeader(line).Some? { MatchedHeaderIsPrinted(line); }
    }
    LogFitsIff(req.verb, req.path, req.version, rest);
    TurnAtLine(req, line, rest, s);
    ParseTurn(req, s, used, next, |line| + 2);
    if rest != [] {
      ParseWholeBody(next, rest, used + |line| + 2);
      BodyIsKept(next, rest);
    }
  }

  /** The shortest plain body that is too long. */
  lemma LongBodyOverruns(body: Bytes)
    requires |body| == 242 && forall k :: 0 <= k < |body| ==> body[k] == 'a'
    ensures ParseFrom(FRESH, PrintRequest(Triple("POST", "/", "1.1"), [], body), 0) == Overrun
  {
    hide ParseFrom, BodyLog, RequestLog;
    ParsingUndoesPrinting(Triple("POST", "/", "1.1"), [], body);
    PlainBodyFitsIff(body);
    LogFitsIff([], [], [], body);
  }

  /** post holds the fields; on the account pages also an empty user name or password where they had none. */
  predicate PostOf(post: Fields, path: Bytes, fields: Fields) {
    && post.Keys == fields.Keys +
         (if path == "/login.html" || path == "/register.html" then {"username", "password"} else {})
    && (forall k :: k in fields ==> post[k] == fields[k])
    && (forall k :: k in post && k !in fields ==> post[k] == [])
  }

  /** A form that is posted arrives as the fields it was filled with. */
  lemma PostedFormArrives(t: Triple, hs: seq<Header>, pairs: seq<U.Pair>, k: nat)
    requires Printable(t, hs) && t.verb == "POST" && U.ArePairs(pairs) && pairs != []
    requires IsLast(hs, k) && hs[k].name == "Content-Type" && hs[k].value == "application/x-www-form-urlencoded"
    ensures
      var o := ParseFrom(FRESH, PrintRequest(t, hs, U.FormBody(pairs)), 0);
      o.Overrun? || (o.Complete? && PostOf(o.req.post, o.req.path, U.LastWins(map[], pairs)))
  {
    U.FormRoundTrip(map[], pairs);
    U.FormIsNotEmpty(pairs);
    FormArrives(t, hs, U.FormBody(pairs), U.LastWins(map[], pairs), k);
  }

  /** So does one in any other encoding, with plus signs for spaces and digits of either case. */
  lemma AnyPostedFormArrives(t: Triple, hs: seq<Header>, fields: seq<U.Sent>, pairs: seq<U.Pair>, k: nat)
    requires Printable(t, hs) && t.verb == "POST" && fields != [] && |fields| == |pairs|
    requires forall i :: 0 <= i < |fields| ==> U.EncodesPair(fields[i], pairs[i])
    requires IsLast(hs, k) && hs[k].name == "Content-Type" && hs[k].value == "application/x-www-form-urlencoded"
    ensures
      var o := ParseFrom(FRESH, PrintRequest(t, hs, U.SentBody(fields)), 0);
      o.Overrun? || (o.Complete? && PostOf(o.req.post, o.req.path, U.LastWins(map[], pairs)))
  {
    U.AnyFormArrives(map[], fields, pairs);
    FormArrives(t, hs, U.SentBody(fields), U.LastWins(map[], pairs), k);
  }

  lemma FormArrives(t: Triple, hs: seq<Header>, body: Bytes, fields: Fields, k: nat)
    requires Printable(t, hs) && t.verb == "POST" && body != [] && U.ParseFields(map[], body) == fields
    requires IsLast(hs, k) && hs[k].name == "Content-Type" && hs[k].value == "application/x-www-form-urlencoded"
    ensures
      var o := ParseFrom(FRESH, PrintRequest(t, hs, body), 0);
      o.Overrun? || (o.Complete? && PostOf(o.req.post, o.req.path, fields))
  {
    hide ParseFrom, PathOf, LastWins, U.ParseFields, IsHeader, LogsFit, FormFields, AfterBody;
    ParsingUndoesPrinting(t, hs, body);
    LastWinsIsLast(map[], hs, k);
    var req := Request(Body, t.verb, PathOf(t.path), t.version, LastWins(map[], hs), map[], []);
    FormIsStored(req, body);
    AccountFields(req.path, fields);
    BodyIsKept(req, body);
  }

  lemma FormIsStored(req: Request, body: Bytes)
    requires req.verb == "POST" && CONTENT_TYPE in req.headers && req.headers[CONTENT_TYPE] == FORM_TYPE && body != []
    ensures AfterBody(req, body).post == FormFields(req.path, U.ParseFields(map[], body))
  {
    hide FormFields, U.ParseFields;
    assert |FORM_TYPE| != |JSON_TYPE|;
    assert "POST" <= req.verb;
  }

  /** What the account pages make of a form: nothing is changed, and both fields are there. */
  lemma AccountFields(path: Bytes, fields: Fields)
    ensures PostOf(FormFields(path, fields), path, fields)
  {
    assert USERNAME != PASSWORD;
  }

  /** Refused input is left in the buffer exactly if its first line is not complete or does not match. */
  lemma RefusedIntactIff(s: Bytes)
    requires s != [] && ParseFrom(FRESH, s, 0).Refused?
    ensures
      var first := Run(START, s);
      ParseFrom(FRESH, s, 0).used == 0 <==> !first.Done? || MatchRequestLine(first.line).None?
  {
    hide MatchRequestLine, AfterHeader, AfterBody;
    var t := TurnOf(FRESH, s);
    if t.Go? {
      UsedGrows(t.req, s[t.n..], t.n);
    }
  }

  lemma {:induction false} UsedGrows(req: Request, s: Bytes, used: nat)
    ensures ParseFrom(req, s, used).Refused? ==> ParseFrom(req, s, used).used >= used
    decreases |s|
  {
    hide TurnOf;
    if s != [] && req.state != Finish {
      match TurnOf(req, s) {
        case Stop =>
        case Burst =>
        case Go(next, n) => UsedGrows(next, s[n..], used + n);
      }
    }
  }

  /**
   A request that is cut anywhere between its request line and the end of its first header line
   is refused with the request line consumed: the buffer is not what it was.
   */
  lemma CutAfterRequestLine(t: Triple, part: Bytes)
    requires SpaceFree(t) && '\r' !in t.verb && '\r' !in t.path && '\r' !in t.version
    requires part != [] && !Run(START, part).Done?
    ensures ParseFrom(FRESH, PrintRequestLine(t) + CRLF + part, 0) ==
      Refused(FRESH.(state := Headers, verb := t.verb, path := PathOf(t.path), version := t.version),
          |PrintRequestLine(t)| + 2)
  {
    hide MatchRequestLine, PathOf, AfterHeader, AfterBody;
    var line := PrintRequestLine(t);
    var s := line + CRLF + part;
    PrintedIsMatched(t);
    assert '\r' !in line;
    var next := AfterRequestLine(FRESH, line).value;
    TurnAtLine(FRESH, line, part, s);
    ParseTurn(FRESH, s, 0, next, |line| + 2);
    assert TurnOf(next, part) == Stop;
  }
}
