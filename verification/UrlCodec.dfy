/**
 Percent-encoding as the responses do it, decoding as the requests do it, and the parser of
 form bodies on top of it.
 */
module UrlCodec {

  import opened Wrappers

  type Text = seq<char>

  /** Characters stand for bytes. */
  predicate IsBytes(s: Text) {
    forall k :: 0 <= k < |s| ==> s[k] as int < 256
  }

  predicate IsUnreserved(c: char) {
    'A' <= c <= 'Z' || 'a' <= c <= 'z' || '0' <= c <= '9' || c == '-' || c == '_' || c == '.' || c == '~'
  }

  // ----- UrlEncode -----

  function HexDigit(v: int): char
    requires 0 <= v < 16
  {
    if v < 10 then '0' + v as char else 'A' + (v - 10) as char
  }

  /** `%XX` with two upper-case hexadecimal digits. */
  function Escape(c: char): Text
    requires c as int < 256
  {
    ['%', HexDigit(c as int / 16), HexDigit(c as int % 16)]
  }

  function EncodeChar(c: char): Text
    requires c as int < 256
  {
    if IsUnreserved(c) then [c] else Escape(c)
  }

  function Encoded(s: Text): Text
    requires IsBytes(s)
  {
    if s == [] then [] else EncodeChar(s[0]) + Encoded(s[1..])
  }

  lemma Regroup(a: Text, b: Text, c: Text)
    ensures a + (b + c) == (a + b) + c
  {
  }

  lemma EncodedFrom(s: Text, i: nat)
    requires IsBytes(s) && i < |s|
    ensures Encoded(s[i..]) == EncodeChar(s[i]) + Encoded(s[i + 1..])
  {
    assert s[i..][1..] == s[i + 1..];
  }

  method UrlEncode(s: Text) returns (r: Text)
    requires IsBytes(s)
    ensures r == Encoded(s)
  {
    r := [];
    var i := 0;
    assert s[0..] == s;
    while i < |s|
      invariant i <= |s| && r + Encoded(s[i..]) == Encoded(s)
    {
      EncodedFrom(s, i);
      Regroup(r, EncodeChar(s[i]), Encoded(s[i + 1..]));
      if IsUnreserved(s[i]) {
        r := r + [s[i]];
      } else {
        r := r + Escape(s[i]);
      }
      i := i + 1;
    }
    assert s[i..] == [];
  }

  // ----- urlDecode -----

  function HexValue(c: char): int {
    if '0' <= c <= '9' then c as int - '0' as int
    else if 'A' <= c <= 'F' then c as int - 'A' as int + 10
    else if 'a' <= c <= 'f' then c as int - 'a' as int + 10
    else -1
  }

  predicate IsSpace(c: char) {
    c == ' ' || 9 <= c as int <= 13
  }

  /**
   `sscanf("%x")` on the two characters after a percent sign, and the conversion of the
   result to one byte: leading white space, a sign and a second character that is no digit
   are all let through; a bare `0x` is no number.
   */
  function Scan(a: char, b: char): Option<char> {
    if IsSpace(a) then
      if HexValue(b) >= 0 then Some(HexValue(b) as char) else None
    else if a == '+' then
      if HexValue(b) >= 0 then Some(HexValue(b) as char) else None
    else if a == '-' then
      if HexValue(b) >= 0 then Some(((256 - HexValue(b)) % 256) as char) else None
    else if HexValue(a) < 0 then None
    else if HexValue(b) >= 0 then Some((16 * HexValue(a) + HexValue(b)) as char)
    else if a == '0' && (b == 'x' || b == 'X') then None
    else Some(HexValue(a) as char)
  }

  function Decoded(s: Text): Text {
    if s == [] then []
    else if s[0] == '+' then [' '] + Decoded(s[1..])
    else if s[0] == '%' && 2 < |s| then
      match Scan(s[1], s[2])
      case Some(c) => [c] + Decoded(s[3..])
      case None => ['%'] + Decoded(s[1..])
    else [s[0]] + Decoded(s[1..])
  }

  lemma DecodedFrom(s: Text, i: nat)
    requires i < |s|
    ensures Decoded(s[i..]) ==
      if s[i] == '+' then [' '] + Decoded(s[i + 1..])
      else if s[i] == '%' && i + 2 < |s| && Scan(s[i + 1], s[i + 2]).Some? then
        [Scan(s[i + 1], s[i + 2]).value] + Decoded(s[i + 3..])
      else [s[i]] + Decoded(s[i + 1..])
  {
    hide Scan;
    assert s[i..][1..] == s[i + 1..];
    assert i + 2 < |s| ==> s[i..][3..] == s[i + 3..];
  }

  method UrlDecode(s: Text) returns (r: Text)
    ensures r == Decoded(s)
  {
    hide Scan, Decoded;
    r := [];
    var i := 0;
    assert s[0..] == s;
    while i < |s|
      invariant i <= |s| && r + Decoded(s[i..]) == Decoded(s)
    {
      DecodedFrom(s, i);
      if s[i] == '+' {
        Regroup(r, [' '], Decoded(s[i + 1..]));
        r := r + [' '];
      } else if s[i] == '%' && i + 2 < |s| {
        match Scan(s[i + 1], s[i + 2]) {
          case Some(c) =>
            Regroup(r, [c], Decoded(s[i + 3..]));
            r := r + [c];
            i := i + 2;
          case None =>
            Regroup(r, ['%'], Decoded(s[i + 1..]));
            r := r + ['%'];
        }
      } else {
        Regroup(r, [s[i]], Decoded(s[i + 1..]));
        r := r + [s[i]];
      }
      i := i + 1;
    }
    assert s[i..] == [];
    DecodedNothing();
  }

  lemma DecodedNothing()
    ensures Decoded([]) == []
  {
  }

  // ----- The round trip -----

  /** Only unreserved characters and `%XX` with upper-case digits (sections 2.1 and 2.3 of RFC 3986). */
  ghost predicate IsEncoded(s: Text) {
    if s == [] then true
    else if s[0] == '%' then
      2 < |s| && IsUpperHex(s[1]) && IsUpperHex(s[2]) && IsEncoded(s[3..])
    else IsUnreserved(s[0]) && IsEncoded(s[1..])
  }

  predicate IsUpperHex(c: char) {
    '0' <= c <= '9' || 'A' <= c <= 'F'
  }

  lemma HexPair(c: char)
    requires c as int < 256
    ensures IsUpperHex(Escape(c)[1]) && IsUpperHex(Escape(c)[2])
    ensures Scan(Escape(c)[1], Escape(c)[2]) == Some(c)
  {
    var v := c as int;
    assert HexValue(HexDigit(v / 16)) == v / 16 && HexValue(HexDigit(v % 16)) == v % 16;
    assert 16 * (v / 16) + v % 16 == v;
  }

  lemma DecodeOne(c: char, tail: Text)
    requires c as int < 256
    ensures Decoded(EncodeChar(c) + tail) == [c] + Decoded(tail)
  {
    var all := EncodeChar(c) + tail;
    if IsUnreserved(c) {
      assert all[1..] == tail;
    } else {
      HexPair(c);
      assert all[3..] == tail;
    }
  }

  /** `urlDecode(UrlEncode(s)) == s`, also in front of other text. */
  lemma {:induction false} DecodeUndoesEncode(s: Text, rest: Text)
    requires IsBytes(s)
    ensures Decoded(Encoded(s) + rest) == s + Decoded(rest)
  {
    hide Decoded, EncodeChar;
    if s == [] {
      assert Encoded(s) + rest == rest;
    } else {
      var first, tail := EncodeChar(s[0]), Encoded(s[1..]);
      DecodeUndoesEncode(s[1..], rest);
      DecodeOne(s[0], tail + rest);
      Regroup(first, tail, rest);
      assert [s[0]] + (s[1..] + Decoded(rest)) == s + Decoded(rest);
    }
  }

  lemma {:induction false} EncodedIsEncoded(s: Text)
    requires IsBytes(s)
    ensures IsEncoded(Encoded(s))
  {
    if s != [] {
      var c, tail := s[0], Encoded(s[1..]);
      EncodedIsEncoded(s[1..]);
      if IsUnreserved(c) {
        assert Encoded(s)[1..] == tail;
      } else {
        HexPair(c);
        assert Encoded(s)[3..] == tail;
      }
    }
  }

  lemma {:induction false} EncodedHasNoSeparator(s: Text)
    requires IsEncoded(s)
    ensures '&' !in s && '=' !in s
    decreases |s|
  {
    if s != [] {
      if s[0] == '%' {
        EncodedHasNoSeparator(s[3..]);
        assert s == [s[0], s[1], s[2]] + s[3..];
      } else {
        EncodedHasNoSeparator(s[1..]);
        assert s == [s[0]] + s[1..];
      }
    }
  }

  lemma RoundTrip(s: Text)
    requires IsBytes(s)
    ensures Decoded(Encoded(s)) == s
  {
    DecodeUndoesEncode(s, []);
    assert Encoded(s) + [] == Encoded(s);
  }

  // ----- What is encoded and decoded, in literal terms -----

  const UPPER_CASE: Text := "ABCDEFGHIJKLMNOPQRSTUVWXYZ"
  const LOWER_CASE: Text := "abcdefghijklmnopqrstuvwxyz"
  const DIGITS: Text := "0123456789"
  const SPACES: Text := [' ', '\t', '\n', 11 as char, 12 as char, '\r']

  /** The letters of a run of the alphabet that starts at first. */
  predicate IsRun(a: Text, first: char) {
    forall i :: 0 <= i < |a| ==> a[i] as int == first as int + i
  }

  lemma InRun(a: Text, first: char, c: char)
    requires IsRun(a, first)
    ensures c in a <==> first as int <= c as int < first as int + |a|
  {
    if first as int <= c as int < first as int + |a| {
      assert a[c as int - first as int] == c;
    }
  }

  predicate IsPlain(c: char) {
    c in UPPER_CASE || c in LOWER_CASE || c in DIGITS || c in "-_.~"
  }

  /** The unreserved characters of section 2.3 of RFC 3986. */
  lemma UnreservedAlphabet(c: char)
    ensures IsUnreserved(c) <==> IsPlain(c)
  {
    InRun(UPPER_CASE, 'A', c);
    InRun(LOWER_CASE, 'a', c);
    InRun(DIGITS, '0', c);
    var others := "-_.~";
    assert others[0] == '-' && others[1] == '_' && others[2] == '.' && others[3] == '~';
  }

  lemma SpaceAlphabet(c: char)
    ensures IsSpace(c) <==> c in SPACES
  {
    var t: Text := ['\t', '\n', 11 as char, 12 as char, '\r'];
    InRun(t, '\t', c);
    assert SPACES == [' '] + t;
  }

  /** x is the hexadecimal digit for h, in either case. */
  predicate IsDigit(x: char, h: int) {
    0 <= h < 16 && (x == "0123456789ABCDEF"[h] || x == "0123456789abcdef"[h])
  }

  lemma DigitValue(x: char, h: int)
    requires IsDigit(x, h)
    ensures HexValue(x) == h && !IsSpace(x) && x != '+' && x != '-' && x != '%'
  {
  }

  /** A text of unreserved characters is encoded as itself. */
  lemma {:induction false} UnreservedIsKept(s: Text)
    requires IsBytes(s) && forall k :: 0 <= k < |s| ==> IsPlain(s[k])
    ensures Encoded(s) == s
    decreases |s|
  {
    hide IsPlain, IsUnreserved;
    if s != [] {
      UnreservedAlphabet(s[0]);
      UnreservedIsKept(s[1..]);
      assert s == [s[0]] + s[1..];
    }
  }

  /** Any other byte is a percent sign and the two upper-case digits of its value. */
  lemma OthersAreEscaped(c: char, h: int, l: int)
    requires c as int < 256 && c as int == 16 * h + l && 0 <= h < 16 && 0 <= l < 16
    requires !IsPlain(c)
    ensures Encoded([c]) == ['%', "0123456789ABCDEF"[h], "0123456789ABCDEF"[l]]
  {
    UnreservedAlphabet(c);
    assert [c][1..] == [];
    assert c as int / 16 == h && c as int % 16 == l;
    assert Encoded([c]) == EncodeChar(c) + Encoded([]);
  }

  /** Texts are encoded one after the other. */
  lemma {:induction false} EncodedInParts(a: Text, b: Text)
    requires IsBytes(a) && IsBytes(b)
    ensures IsBytes(a + b) && Encoded(a + b) == Encoded(a) + Encoded(b)
    decreases |a|
  {
    hide EncodeChar;
    if a == [] {
      assert a + b == b;
    } else {
      assert (a + b)[1..] == a[1..] + b;
      EncodedInParts(a[1..], b);
    }
  }

  /** An escape with digits of either case stands for its byte. */
  lemma EscapeIsDecoded(x: char, y: char, h: int, l: int, rest: Text)
    requires IsDigit(x, h) && IsDigit(y, l)
    ensures Decoded(['%', x, y] + rest) == [(16 * h + l) as char] + Decoded(rest)
  {
    DigitValue(x, h);
    DigitValue(y, l);
    assert (['%', x, y] + rest)[3..] == rest;
  }

  /** A plus sign is a space, and every other character but a percent sign is itself. */
  lemma PlainIsDecoded(c: char, rest: Text)
    requires c != '%'
    ensures Decoded([c] + rest) == [if c == '+' then ' ' else c] + Decoded(rest)
  {
    assert ([c] + rest)[1..] == rest;
  }

  /** A percent sign with fewer than two characters after it is kept. */
  lemma LatePercentIsKept(rest: Text)
    requires |rest| < 2
    ensures Decoded(['%'] + rest) == ['%'] + Decoded(rest)
  {
    assert (['%'] + rest)[1..] == rest;
  }

  predicate IsNoDigit(x: char) {
    forall h :: 0 <= h < 16 ==> !IsDigit(x, h)
  }

  lemma NoDigitValue(x: char)
    requires IsNoDigit(x)
    ensures HexValue(x) < 0
  {
    if 0 <= HexValue(x) {
      assert IsDigit(x, HexValue(x));
    }
  }

  /** What `sscanf` lets through: a single digit, also after white space or a sign. */
  lemma OneDigitIsDecoded(x: char, y: char, h: int, rest: Text)
    ensures IsDigit(x, h) && IsNoDigit(y) && !(x == '0' && (y == 'x' || y == 'X')) ==>
      Decoded(['%', x, y] + rest) == [h as char] + Decoded(rest)
    ensures (x in SPACES || x == '+') && IsDigit(y, h) ==>
      Decoded(['%', x, y] + rest) == [h as char] + Decoded(rest)
    ensures x == '-' && IsDigit(y, h) ==>
      Decoded(['%', x, y] + rest) == [if h == 0 then 0 as char else (256 - h) as char] + Decoded(rest)
  {
    assert (['%', x, y] + rest)[3..] == rest;
    SpaceAlphabet(x);
    if IsDigit(x, h) { DigitValue(x, h); }
    if IsDigit(y, h) { DigitValue(y, h); }
    if IsNoDigit(y) { NoDigitValue(y); }
  }

  /** Anything else after a percent sign is no escape, and the sign is kept. */
  lemma NoEscapeIsKept(x: char, y: char, rest: Text)
    requires (IsNoDigit(x) && x !in SPACES && x != '+' && x != '-')
          || ((x in SPACES || x == '+' || x == '-') && IsNoDigit(y))
          || (x == '0' && (y == 'x' || y == 'X'))
    ensures Decoded(['%', x, y] + rest) == ['%'] + Decoded([x, y] + rest)
  {
    assert (['%', x, y] + rest)[1..] == [x, y] + rest;
    SpaceAlphabet(x);
    if IsNoDigit(x) { NoDigitValue(x); }
    if IsNoDigit(y) { NoDigitValue(y); }
  }

  /**
   e is some encoding of s: each byte as itself, a space as a plus sign, or any byte as an
   escape with digits of either case.
   */
  ghost predicate Encodes(e: Text, s: Text)
    decreases |e|
  {
    if e == [] then s == []
    else if e[0] == '%' then
      && |e| >= 3 && s != [] && (exists h, l :: IsDigit(e[1], h) && IsDigit(e[2], l) && s[0] as int == 16 * h + l)
      && Encodes(e[3..], s[1..])
    else s != [] && s[0] == (if e[0] == '+' then ' ' else e[0]) && Encodes(e[1..], s[1..])
  }

  /** Decoding undoes every encoding, not only that of `UrlEncode`. */
  lemma {:induction false} DecodeUndoesAny(e: Text, s: Text)
    requires Encodes(e, s)
    ensures Decoded(e) == s
    decreases |e|
  {
    hide IsDigit, Scan;
    if e == [] {
    } else if e[0] == '%' {
      var h, l :| IsDigit(e[1], h) && IsDigit(e[2], l) && s[0] as int == 16 * h + l;
      DecodeUndoesAny(e[3..], s[1..]);
      EscapeIsDecoded(e[1], e[2], h, l, e[3..]);
      assert e == ['%', e[1], e[2]] + e[3..];
      assert s == [s[0]] + s[1..];
    } else {
      DecodeUndoesAny(e[1..], s[1..]);
      PlainIsDecoded(e[0], e[1..]);
      assert e == [e[0]] + e[1..];
      assert s == [s[0]] + s[1..];
    }
  }

  // ----- Form bodies -----

  /** `find`: the first position of c at or after start, or the length of s if there is none. */
  method Find(s: Text, c: char, start: nat) returns (at: nat)
    requires start <= |s|
    ensures start <= at <= |s| && c !in s[start..at] && (at < |s| ==> s[at] == c)
  {
    at := start;
    while at < |s| && s[at] != c
      invariant start <= at <= |s| && c !in s[start..at]
    {
      assert s[start..at + 1] == s[start..at] + [s[at]];
      at := at + 1;
    }
  }

  /** Length of the part of s before the first c. */
  function Before(s: Text, c: char): (n: nat)
    ensures n <= |s| && c !in s[..n] && (n < |s| ==> s[n] == c)
  {
    if s == [] || s[0] == c then 0
    else
      var n := Before(s[1..], c);
      assert s[..n + 1] == [s[0]] + s[1..][..n];
      n + 1
  }

  lemma {:induction false} BeforeIsUnique(s: Text, c: char, n: nat)
    requires n <= |s| && c !in s[..n] && (n < |s| ==> s[n] == c)
    ensures Before(s, c) == n
  {
    var m := Before(s, c);
    assert forall k :: 0 <= k < n ==> s[..n][k] == s[k];
    assert forall k :: 0 <= k < m ==> s[..m][k] == s[k];
  }

  type Post = map<Text, Text>

  /** One field of a form body: decoded and stored if it has a `=`, skipped otherwise. */
  function Store(post: Post, field: Text): Post {
    var equal := Before(field, '=');
    if equal == |field| then post
    else post[Decoded(field[..equal]) := Decoded(field[equal + 1..])]
  }

  /** The fields between `&` signs, stored one after the other. */
  function ParseFields(post: Post, body: Text): Post
    decreases |body|
  {
    if body == [] then post
    else
      var end := Before(body, '&');
      var post' := Store(post, body[..end]);
      if end == |body| then post' else ParseFields(post', body[end + 1..])
  }

  function Suffix(body: Text, i: nat): Text {
    if i <= |body| then body[i..] else []
  }

  lemma NextField(post: Post, body: Text, start: nat, end: nat)
    requires start < |body| && start <= end <= |body| && '&' !in body[start..end] && (end < |body| ==> body[end] == '&')
    ensures ParseFields(post, Suffix(body, start)) == ParseFields(Store(post, body[start..end]), Suffix(body, end + 1))
  {
    hide Store, Before;
    var rest := body[start..];
    FoundIsBefore(body, '&', start, end);
    assert rest[..end - start] == body[start..end];
    assert end < |body| ==> rest[end - start + 1..] == body[end + 1..];
  }

  lemma FoundIsBefore(s: Text, c: char, start: nat, at: nat)
    requires start <= at <= |s| && c !in s[start..at] && (at < |s| ==> s[at] == c)
    ensures Before(s[start..], c) == at - start
  {
    assert s[start..][..at - start] == s[start..at];
    BeforeIsUnique(s[start..], c, at - start);
  }

  lemma FieldWithoutEqual(body: Text, start: nat, end: nat, equal: nat)
    requires start <= end <= |body| && start <= equal <= |body| && '=' !in body[start..equal]
    requires equal == |body| || equal > end
    ensures Before(body[start..end], '=') == end - start
  {
    assert forall k :: 0 <= k < end - start ==> body[start..end][k] == body[start..equal][k];
    BeforeIsUnique(body[start..end], '=', end - start);
  }

  lemma FieldWithEqual(body: Text, start: nat, end: nat, equal: nat)
    requires start <= end <= |body| && start <= equal < |body| && '=' !in body[start..equal] && body[equal] == '='
    requires equal <= end && (end < |body| ==> body[end] == '&')
    ensures equal < end && Before(body[start..end], '=') == equal - start
    ensures body[start..end][..equal - start] == body[start..equal]
    ensures body[start..end][equal - start + 1..] == body[equal + 1..end]
  {
    var field := body[start..end];
    assert field[..equal - start] == body[start..equal];
    BeforeIsUnique(field, '=', equal - start);
  }

  lemma SkipField(post: Post, body: Text, start: nat, end: nat, equal: nat)
    requires start <= end <= |body| && start <= equal <= |body| && '=' !in body[start..equal]
    requires equal == |body| || equal > end
    ensures Store(post, body[start..end]) == post
  {
    FieldWithoutEqual(body, start, end, equal);
  }

  lemma StoreField(post: Post, body: Text, start: nat, end: nat, equal: nat)
    requires start <= end <= |body| && start <= equal < |body| && '=' !in body[start..equal] && body[equal] == '='
    requires equal <= end && (end < |body| ==> body[end] == '&')
    ensures equal < end
    ensures Store(post, body[start..end]) == post[Decoded(body[start..equal]) := Decoded(body[equal + 1..end])]
  {
    FieldWithEqual(body, start, end, equal);
  }

  /** The field from start to end: split at the first `=`, decoded and stored. */
  method StoreOne(body: Text, start: nat, end: nat, post0: Post) returns (post: Post)
    requires start <= end <= |body| && (end < |body| ==> body[end] == '&')
    ensures post == Store(post0, body[start..end])
  {
    var equal := Find(body, '=', start);
    if equal == |body| || equal > end {
      SkipField(post0, body, start, end, equal);
      return post0;
    }
    StoreField(post0, body, start, end, equal);
    var key := UrlDecode(body[start..equal]);
    var value := UrlDecode(body[equal + 1..end]);
    post := post0[key := value];
  }

  /** `ParseFromUrlencoded_`: an empty body leaves the map as it is. */
  method ParseFromUrlencoded(body: Text, post0: Post) returns (post: Post)
    ensures post == if body == [] then post0 else ParseFields(map[], body)
  {
    hide Store, Before, Decoded;
    if body == [] { return post0; }
    post := map[];
    var start := 0;
    assert Suffix(body, 0) == body;
    while start < |body|
      invariant ParseFields(post, Suffix(body, start)) == ParseFields(map[], body)
      decreases |body| - start
    {
      var end := Find(body, '&', start);
      NextField(post, body, start, end);
      post := StoreOne(body, start, end, post);
      start := end + 1;
    }
  }

  // ----- Form decoding undoes form encoding -----

  datatype Pair = Pair(key: Text, value: Text)

  predicate ArePairs(pairs: seq<Pair>) {
    forall k :: 0 <= k < |pairs| ==> IsBytes(pairs[k].key) && IsBytes(pairs[k].value)
  }

  function EncodedPair(p: Pair): Text
    requires IsBytes(p.key) && IsBytes(p.value)
  {
    Encoded(p.key) + ['='] + Encoded(p.value)
  }

  /** Keys and values, percent-encoded, as `k=v` fields joined by `&`. */
  function FormBody(pairs: seq<Pair>): Text
    requires ArePairs(pairs)
  {
    if pairs == [] then []
    else if |pairs| == 1 then EncodedPair(pairs[0])
    else EncodedPair(pairs[0]) + ['&'] + FormBody(pairs[1..])
  }

  lemma FormIsNotEmpty(pairs: seq<Pair>)
    requires ArePairs(pairs) && pairs != []
    ensures FormBody(pairs) != []
  {
  }

  /** A later value for a key replaces an earlier one. */
  function LastWins(post: Post, pairs: seq<Pair>): Post
    decreases |pairs|
  {
    if pairs == [] then post else LastWins(post[pairs[0].key := pairs[0].value], pairs[1..])
  }

  lemma StorePair(post: Post, p: Pair)
    requires IsBytes(p.key) && IsBytes(p.value)
    ensures '&' !in EncodedPair(p) && EncodedPair(p) != []
    ensures Store(post, EncodedPair(p)) == post[p.key := p.value]
  {
    hide Decoded, Encoded, IsEncoded;
    var k, v, field := Encoded(p.key), Encoded(p.value), EncodedPair(p);
    EncodedIsEncoded(p.key);
    EncodedIsEncoded(p.value);
    EncodedHasNoSeparator(k);
    EncodedHasNoSeparator(v);
    assert field[..|k|] == k && field[|k|] == '=' && field[|k| + 1..] == v;
    BeforeIsUnique(field, '=', |k|);
    RoundTrip(p.key);
    RoundTrip(p.value);
  }

  /** Decoding the body of a form gives exactly the pairs that were encoded, the last one for each key. */
  lemma {:induction false} FormRoundTrip(post: Post, pairs: seq<Pair>)
    requires ArePairs(pairs)
    ensures ParseFields(post, FormBody(pairs)) == LastWins(post, pairs)
    decreases |pairs|
  {
    if pairs != [] {
      var body, field := FormBody(pairs), EncodedPair(pairs[0]);
      StorePair(post, pairs[0]);
      FormRoundTrip(post[pairs[0].key := pairs[0].value], pairs[1..]);
      assert body[..|field|] == field;
      BeforeIsUnique(body, '&', |field|);
      if |pairs| > 1 {
        assert body[|field| + 1..] == FormBody(pairs[1..]);
      }
    }
  }

  /** The value kept for a key is that of its last field. */
  lemma {:induction false} LastWinsIsLast(post: Post, pairs: seq<Pair>, k: nat)
    requires k < |pairs| && forall j :: k < j < |pairs| ==> pairs[j].key != pairs[k].key
    ensures pairs[k].key in LastWins(post, pairs) && LastWins(post, pairs)[pairs[k].key] == pairs[k].value
    decreases |pairs|
  {
    if k > 0 {
      LastWinsIsLast(post[pairs[0].key := pairs[0].value], pairs[1..], k - 1);
    } else {
      OtherKeysKeep(post[pairs[0].key := pairs[0].value], pairs[1..], pairs[0].key);
    }
  }

  lemma {:induction false} OtherKeysKeep(post: Post, pairs: seq<Pair>, key: Text)
    requires forall j :: 0 <= j < |pairs| ==> pairs[j].key != key
    ensures key in LastWins(post, pairs) <==> key in post
    ensures key in post ==> LastWins(post, pairs)[key] == post[key]
    decreases |pairs|
  {
    if pairs != [] {
      OtherKeysKeep(post[pairs[0].key := pairs[0].value], pairs[1..], key);
    }
  }

  // ----- The scan of a body, field by field -----

  /** A field without an equals sign changes nothing. */
  lemma FieldIsSkipped(post: Post, field: Text, rest: Text)
    requires '&' !in field && '=' !in field
    ensures ParseFields(post, field + ['&'] + rest) == ParseFields(post, rest)
    ensures field != [] ==> ParseFields(post, field) == post
  {
    assert Store(post, field) == post by { BeforeIsUnique(field, '=', |field|); }
    hide Store;
    FirstField(post, field, rest);
  }

  /** One with an equals sign is split at the first one, and both parts are decoded. */
  lemma FieldIsStored(post: Post, key: Text, value: Text, rest: Text)
    requires '&' !in key && '=' !in key && '&' !in value
    ensures
      var field := key + ['='] + value;
      var post' := post[Decoded(key) := Decoded(value)];
      ParseFields(post, field + ['&'] + rest) == ParseFields(post', rest) && ParseFields(post, field) == post'
  {
    hide Decoded;
    var field := key + ['='] + value;
    assert field[..|key|] == key && field[|key| + 1..] == value;
    BeforeIsUnique(field, '=', |key|);
    assert '&' !in field;
    var post' := Store(post, field);
    hide Store;
    FirstField(post, field, rest);
  }

  lemma FirstField(post: Post, field: Text, rest: Text)
    requires '&' !in field
    ensures ParseFields(post, field + ['&'] + rest) == ParseFields(Store(post, field), rest)
    ensures field != [] ==> ParseFields(post, field) == Store(post, field)
  {
    hide Store;
    var body := field + ['&'] + rest;
    assert body[..|field|] == field && body[|field| + 1..] == rest;
    BeforeIsUnique(body, '&', |field|);
    BeforeIsUnique(field, '&', |field|);
    assert field[..|field|] == field;
  }

  // ----- Forms in any encoding -----

  /** A field as it is sent: key and value in some encoding, without the separators. */
  datatype Sent = Sent(key: Text, value: Text)

  ghost predicate EncodesPair(f: Sent, p: Pair) {
    && Encodes(f.key, p.key) && Encodes(f.value, p.value)
    && '&' !in f.key && '=' !in f.key && '&' !in f.value
  }

  function SentBody(fields: seq<Sent>): Text {
    if fields == [] then []
    else if |fields| == 1 then fields[0].key + ['='] + fields[0].value
    else fields[0].key + ['='] + fields[0].value + ['&'] + SentBody(fields[1..])
  }

  /** A form body in any encoding, as browsers write them too, gives exactly its pairs. */
  lemma {:induction false} AnyFormArrives(post: Post, fields: seq<Sent>, pairs: seq<Pair>)
    requires |fields| == |pairs| && forall k :: 0 <= k < |fields| ==> EncodesPair(fields[k], pairs[k])
    ensures ParseFields(post, SentBody(fields)) == LastWins(post, pairs)
    decreases |fields|
  {
    hide Decoded, Encodes;
    if fields != [] {
      var f, p := fields[0], pairs[0];
      assert EncodesPair(f, p);
      DecodeUndoesAny(f.key, p.key);
      DecodeUndoesAny(f.value, p.value);
      FieldIsStored(post, f.key, f.value, SentBody(fields[1..]));
      AnyFormArrives(post[p.key := p.value], fields[1..], pairs[1..]);
    }
  }
}
