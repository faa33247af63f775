/**
 Provider-qualified principal ids (auth/principal.rs): `provider:kind:local-id` with the local id
 percent-encoded as in sections 2.1 and 2.3 of RFC 3986. Strings are their UTF-8 bytes.
 */
module Principal {
  import opened Common
  import opened Text

  type Bytes = seq<byte>

  const COLON: byte := 58
  const PERCENT: byte := 37

  datatype Kind = User | Group {
    function Name(): Bytes {
      match this case User => [117, 115, 101, 114] case Group => [103, 114, 111, 117, 112]
    }
  }

  predicate IsLower(b: byte) { 97 <= b <= 122 }
  predicate IsDigit(b: byte) { 48 <= b <= 57 }

  /** Letters, digits and the four marks `.`, `_`, `-`, `~`. */
  predicate IsUnreserved(b: byte) {
    IsLower(b) || 65 <= b <= 90 || IsDigit(b) || b == 46 || b == 95 || b == 45 || b == 126
  }

  // ---- Percent encoding ----

  function HexDigit(n: int): (b: byte)
    requires 0 <= n < 16
    ensures HexValue(b) == Some(n)
  {
    if n < 10 then (48 + n) as byte else (55 + n) as byte
  }

  function HexValue(b: byte): Option<int> {
    if 48 <= b <= 57 then Some(b as int - 48)
    else if 97 <= b <= 102 then Some(b as int - 87)
    else if 65 <= b <= 70 then Some(b as int - 55)
    else None
  }

  function EscapeByte(b: byte): Bytes {
    if IsUnreserved(b) then [b] else [PERCENT, HexDigit(b as int / 16), HexDigit(b as int % 16)]
  }

  function Escape(s: Bytes): Bytes {
    if s == [] then [] else EscapeByte(s[0]) + Escape(s[1..])
  }

  /** Percent decoding before the UTF-8 check; None for a truncated or non-hexadecimal escape. */
  function Decode(t: Bytes): Option<Bytes> {
    if t == [] then Some([])
    else if t[0] != PERCENT then Prepend(t[0], Decode(t[1..]))
    else if |t| < 3 || HexValue(t[1]).None? || HexValue(t[2]).None? then None
    else Prepend((HexValue(t[1]).value * 16 + HexValue(t[2]).value) as byte, Decode(t[3..]))
  }

  function Prepend(b: byte, rest: Option<Bytes>): Option<Bytes> {
    if rest.Some? then Some([b] + rest.value) else None
  }

  method EscapeLocalId(value: Bytes) returns (escaped: Bytes)
    ensures escaped == Escape(value)
  {
    escaped := [];
    for i := 0 to |value|
      invariant escaped + Escape(value[i..]) == Escape(value)
    {
      assert value[i..][1..] == value[i + 1..];
      escaped := escaped + EscapeByte(value[i]);
    }
  }

  function AfterPrefix(decoded: Bytes, rest: Option<Bytes>): Option<Bytes> {
    if rest.Some? then Some(decoded + rest.value) else None
  }

  lemma MoveOne(decoded: Bytes, b: byte, rest: Option<Bytes>)
    ensures AfterPrefix(decoded, Prepend(b, rest)) == AfterPrefix(decoded + [b], rest)
  {
    if rest.Some? {
      assert decoded + ([b] + rest.value) == decoded + [b] + rest.value;
    }
  }

  method UnescapeLocalId(value: Bytes) returns (r: Option<Bytes>)
    ensures r == Unescape(value)
  {
    var decoded: Bytes := [];
    var index := 0;
    assert value[0..] == value && forall x: Bytes :: [] + x == x;
    while index < |value|
      invariant 0 <= index <= |value|
      invariant Decode(value) == AfterPrefix(decoded, Decode(value[index..]))
    {
      ghost var rest := value[index..];
      if value[index] != PERCENT {
        assert rest[1..] == value[index + 1..];
        MoveOne(decoded, value[index], Decode(rest[1..]));
        decoded := decoded + [value[index]];
        index := index + 1;
        continue;
      }
      if index + 2 >= |value| || HexValue(value[index + 1]).None? || HexValue(value[index + 2]).None? {
        return None;
      }
      var b := (HexValue(value[index + 1]).value * 16 + HexValue(value[index + 2]).value) as byte;
      assert rest[3..] == value[index + 3..];
      MoveOne(decoded, b, Decode(rest[3..]));
      decoded := decoded + [b];
      index := index + 3;
    }
    assert decoded + [] == decoded;
    r := if IsUtf8(decoded) then Some(decoded) else None;
  }

  function Unescape(value: Bytes): Option<Bytes> {
    match Decode(value)
    case Some(decoded) => if IsUtf8(decoded) then Some(decoded) else None
    case None => None
  }

  lemma {:induction false} DecodeEscaped(s: Bytes)
    ensures Decode(Escape(s)) == Some(s)
  {
    if s != [] {
      DecodeEscaped(s[1..]);
      var t := Escape(s);
      assert [s[0]] + s[1..] == s;
      if IsUnreserved(s[0]) {
        assert t[0] == s[0] && t[1..] == Escape(s[1..]);
      } else {
        var b := s[0] as int;
        assert t[0] == PERCENT && t[1] == HexDigit(b / 16) && t[2] == HexDigit(b % 16) && t[3..] == Escape(s[1..]);
      }
    }
  }

  const UPPER_HEX: Bytes := [48, 49, 50, 51, 52, 53, 54, 55, 56, 57, 65, 66, 67, 68, 69, 70]

  /** Section 2.3 of RFC 3986: ALPHA, DIGIT and "-", ".", "_", "~" stand for themselves, nothing else does. */
  lemma EscapedByte(b: byte)
    ensures EscapeByte(b) ==
            if 65 <= b <= 90 || 97 <= b <= 122 || 48 <= b <= 57 || b in [45, 46, 95, 126] then [b]
            else [37, UPPER_HEX[b as int / 16], UPPER_HEX[b as int % 16]]
  {
    HexDigits(b as int / 16);
    HexDigits(b as int % 16);
  }

  lemma HexDigits(n: int)
    requires 0 <= n < 16
    ensures HexDigit(n) == UPPER_HEX[n]
  {
  }

  /** Escaping uses only unreserved characters and `%`; in particular it never produces a ':'. */
  lemma {:induction false} EscapedIsPlain(s: Bytes)
    ensures forall b :: b in Escape(s) ==> IsUnreserved(b) || b == PERCENT
    ensures s != [] ==> Escape(s) != []
  {
    if s != [] {
      EscapedIsPlain(s[1..]);
    }
  }

  // ---- UTF-8 ----

  predicate IsContinuation(b: byte) { 128 <= b <= 191 }

  /** Length of the well-formed character at the start, 0 when there is none (Unicode, table 3-7). */
  function CharLength(s: Bytes): (n: nat)
    ensures n <= |s|
  {
    if s == [] then 0
    else if s[0] < 128 then 1
    else if 194 <= s[0] <= 223 then if |s| >= 2 && IsContinuation(s[1]) then 2 else 0
    else if 224 <= s[0] <= 239 then
      if |s| >= 3 && IsContinuation(s[1]) && IsContinuation(s[2]) && (s[0] == 224 ==> s[1] >= 160) &&
          (s[0] == 237 ==> s[1] <= 159)
      then 3 else 0
    else if 240 <= s[0] <= 244 then
      if && |s| >= 4 && IsContinuation(s[1]) && IsContinuation(s[2]) && IsContinuation(s[3])
         && (s[0] == 240 ==> s[1] >= 144) && (s[0] == 244 ==> s[1] <= 143)
      then 4 else 0
    else 0
  }

  predicate IsUtf8(s: Bytes)
    decreases |s|
  {
    s == [] || (CharLength(s) > 0 && IsUtf8(s[CharLength(s)..]))
  }

  // ---- Trimming ----

  predicate IsSpace1(a: byte) { 9 <= a <= 13 || a == 32 }
  predicate IsSpace2(a: byte, b: byte) { a == 194 && (b == 133 || b == 160) }
  predicate IsSpace3(a: byte, b: byte, c: byte) {
    || (a == 225 && b == 154 && c == 128)
    || (a == 226 && b == 128 && (128 <= c <= 138 || c == 168 || c == 169 || c == 175))
    || (a == 226 && b == 129 && c == 159)
    || (a == 227 && b == 128 && c == 128)
  }

  /** Length of the white-space character a string starts with, 0 when there is none. */
  function LeadingSpace(s: Bytes): (n: nat)
    ensures n <= |s|
  {
    if |s| >= 1 && IsSpace1(s[0]) then 1
    else if |s| >= 2 && IsSpace2(s[0], s[1]) then 2
    else if |s| >= 3 && IsSpace3(s[0], s[1], s[2]) then 3
    else 0
  }

  function TrailingSpace(s: Bytes): (n: nat)
    ensures n <= |s|
  {
    var k := |s|;
    if k >= 1 && IsSpace1(s[k - 1]) then 1
    else if k >= 2 && IsSpace2(s[k - 2], s[k - 1]) then 2
    else if k >= 3 && IsSpace3(s[k - 3], s[k - 2], s[k - 1]) then 3
    else 0
  }

  function TrimStart(s: Bytes): Bytes
    decreases |s|
  {
    if LeadingSpace(s) == 0 then s else TrimStart(s[LeadingSpace(s)..])
  }

  function TrimEnd(s: Bytes): Bytes
    decreases |s|
  {
    if TrailingSpace(s) == 0 then s else TrimEnd(s[..|s| - TrailingSpace(s)])
  }

  function Trim(s: Bytes): Bytes {
    TrimEnd(TrimStart(s))
  }

  /** White-space characters one after the other, read from the front and from the back. */
  ghost predicate IsBlank(s: Bytes)
    decreases |s|
  {
    s == [] || (LeadingSpace(s) > 0 && IsBlank(s[LeadingSpace(s)..]))
  }

  ghost predicate IsBlankEnd(s: Bytes)
    decreases |s|
  {
    s == [] || (TrailingSpace(s) > 0 && IsBlankEnd(s[..|s| - TrailingSpace(s)]))
  }

  lemma {:induction false} TrimStartParts(s: Bytes) returns (pre: Bytes)
    ensures s == pre + TrimStart(s) && IsBlank(pre) && LeadingSpace(TrimStart(s)) == 0
    decreases |s|
  {
    pre := [];
    var n := LeadingSpace(s);
    if n > 0 {
      pre := TrimStartParts(s[n..]);
      pre := s[..n] + pre;
      assert pre[n..] + TrimStart(s[n..]) == s[n..] && LeadingSpace(pre) == n;
    }
  }

  lemma {:induction false} TrimEndParts(s: Bytes) returns (post: Bytes)
    ensures s == TrimEnd(s) + post && IsBlankEnd(post) && TrailingSpace(TrimEnd(s)) == 0
    decreases |s|
  {
    post := [];
    var n := TrailingSpace(s);
    if n > 0 {
      var front, last := s[..|s| - n], s[|s| - n..];
      post := TrimEndParts(front);
      LastSpace(s);
      BlankEndGrows(post, last, n);
      Regroup(s, front, TrimEnd(front), post, last);
      post := post + last;
    }
  }

  lemma Regroup(s: Bytes, front: Bytes, a: Bytes, b: Bytes, c: Bytes)
    requires s == front + c && front == a + b
    ensures s == a + (b + c)
  {
  }

  lemma LastSpace(s: Bytes)
    ensures var n := TrailingSpace(s);
            n > 0 ==> TrailingSpace(s[|s| - n..]) == n && s == s[..|s| - n] + s[|s| - n..]
  {
  }

  lemma BlankEndGrows(post: Bytes, last: Bytes, n: nat)
    requires IsBlankEnd(post) && |last| == n == TrailingSpace(last) && n > 0
    ensures IsBlankEnd(post + last)
  {
    assert (post + last)[..|post|] == post;
    LastSpaceStays(post, last);
  }

  lemma LastSpaceStays(post: Bytes, last: Bytes)
    requires |last| == TrailingSpace(last) > 0
    ensures TrailingSpace(post + last) == |last|
  {
  }

  /** Trimming takes white space off both ends and leaves a text without any there. */
  lemma TrimParts(s: Bytes) returns (pre: Bytes, post: Bytes)
    ensures s == pre + Trim(s) + post && IsBlank(pre) && IsBlankEnd(post)
    ensures LeadingSpace(Trim(s)) == 0 && TrailingSpace(Trim(s)) == 0
  {
    pre := TrimStartParts(s);
    var rest := TrimStart(s);
    post := TrimEndParts(rest);
    assert s == pre + (TrimEnd(rest) + post);
    assert TrimEnd(rest) <= rest;
  }

  predicate IsGraphic(b: byte) { 33 <= b <= 126 }

  lemma TrimPlain(s: Bytes)
    requires s != [] && IsGraphic(s[0]) && IsGraphic(s[|s| - 1])
    ensures Trim(s) == s
  {
  }

  // ---- Qualified ids ----

  predicate IsProvider(p: Bytes) {
    && 1 <= |p| <= 64 && IsLower(p[0])
    && forall i :: 1 <= i < |p| ==> IsLower(p[i]) || IsDigit(p[i]) || p[i] == 95 || p[i] == 45
  }

  /** A provider has 1 to 64 lower-case letters, digits, '_' and '-' and starts with a letter. */
  lemma ProviderIff(p: Bytes)
    ensures IsProvider(p) <==>
            && 1 <= |p| <= 64 && 97 <= p[0] <= 122
            && forall b :: b in p ==> 97 <= b <= 122 || 48 <= b <= 57 || b == 95 || b == 45
  {
    assert forall i :: 0 <= i < |p| ==> p[i] in p;
  }

  /** Plain ASCII is text. */
  lemma {:induction false} AsciiIsText(s: Bytes)
    requires forall b :: b in s ==> b < 128
    ensures IsUtf8(s)
    decreases |s|
  {
    if s != [] {
      assert s[0] in s && forall b :: b in s[1..] ==> b in s;
      AsciiIsText(s[1..]);
    }
  }

  function ProviderNew(value: Bytes): Option<Bytes> {
    if IsProvider(Trim(value)) then Some(Trim(value)) else None
  }

  function Joined(provider: Bytes, kind: Kind, id: Bytes): Bytes {
    provider + [COLON] + (kind.Name() + [COLON] + Escape(id))
  }

  /** `provider:user:id` and `provider:group:id`. */
  lemma IdForm(provider: Bytes, id: Bytes)
    ensures Joined(provider, User, id) == provider + [58, 117, 115, 101, 114, 58] + Escape(id)
    ensures Joined(provider, Group, id) == provider + [58, 103, 114, 111, 117, 112, 58] + Escape(id)
  {
  }

  function New(provider: Bytes, kind: Kind, id: Bytes): Option<Bytes> {
    match ProviderNew(provider)
    case Some(p) => if id == [] then None else Some(Joined(p, kind, id))
    case None => None
  }

  function KindFrom(s: Bytes): Option<Kind> {
    if s == User.Name() then Some(User) else if s == Group.Name() then Some(Group) else None
  }

  function Parse(value: Bytes): Option<Bytes> {
    var parts := Split(Trim(value), COLON);
    if |parts| != 3 then None
    else
      match (KindFrom(parts[1]), Unescape(parts[2]))
      case (Some(kind), Some(id)) => if id == [] then None else New(parts[0], kind, id)
      case _ => None
  }

  /** The accessors: the parts of a canonical id. */
  function ProviderOf(q: Bytes): Bytes { Split(q, COLON)[0] }

  function KindOf(q: Bytes): Option<Kind> {
    if |Split(q, COLON)| > 1 then KindFrom(Split(q, COLON)[1]) else None
  }

  function LocalIdOf(q: Bytes): Option<Bytes> {
    if |Split(q, COLON)| > 2 then Unescape(Split(q, COLON)[2]) else None
  }

  lemma NoColons(p: Bytes, kind: Kind, id: Bytes)
    requires IsProvider(p)
    ensures COLON !in p && COLON !in kind.Name() && COLON !in Escape(id)
  {
  }

  /** A canonical id splits into exactly its three parts. */
  lemma JoinedParts(p: Bytes, kind: Kind, id: Bytes)
    requires IsProvider(p)
    ensures Split(Joined(p, kind, id), COLON) == [p, kind.Name(), Escape(id)]
  {
    NoColons(p, kind, id);
    SplitInThree(p, kind.Name(), Escape(id));
  }

  lemma SplitInThree(a: Bytes, b: Bytes, c: Bytes)
    requires COLON !in a && COLON !in b && COLON !in c
    ensures Split(a + [COLON] + (b + [COLON] + c), COLON) == [a, b, c]
  {
    SplitJoined(a, COLON, b + [COLON] + c);
    SplitJoined(b, COLON, c);
    SplitWhole(c, COLON);
  }

  lemma JoinedIsTrimmed(p: Bytes, kind: Kind, id: Bytes)
    requires IsProvider(p) && id != []
    ensures Trim(Joined(p, kind, id)) == Joined(p, kind, id)
  {
    EscapedIsPlain(id);
    var q, e := Joined(p, kind, id), Escape(id);
    var last := e[|e| - 1];
    assert last in e && IsGraphic(last);
    assert q[0] == p[0] && q[|q| - 1] == last;
    TrimPlain(q);
  }

  lemma ProviderIsTrimmed(p: Bytes)
    requires IsProvider(p)
    ensures ProviderNew(p) == Some(p)
  {
  }

  /** `parse` undoes `new` and the accessors recover the parts, for every id that is text. */
  lemma ParseUndoesNew(provider: Bytes, kind: Kind, id: Bytes)
    requires New(provider, kind, id).Some? && IsUtf8(id)
    ensures var q := New(provider, kind, id).value;
            && Parse(q) == Some(q)
            && ProviderOf(q) == Trim(provider) && KindOf(q) == Some(kind) && LocalIdOf(q) == Some(id)
  {
    var p := Trim(provider);
    JoinedParts(p, kind, id);
    JoinedIsTrimmed(p, kind, id);
    ProviderIsTrimmed(p);
    DecodeEscaped(id);
  }

  /** Distinct principals never share an id. */
  lemma NewIsInjective(p1: Bytes, k1: Kind, id1: Bytes, p2: Bytes, k2: Kind, id2: Bytes)
    requires New(p1, k1, id1).Some? && New(p1, k1, id1) == New(p2, k2, id2)
    ensures Trim(p1) == Trim(p2) && k1 == k2 && id1 == id2
  {
    JoinedParts(Trim(p1), k1, id1);
    JoinedParts(Trim(p2), k2, id2);
    var parts := Split(New(p1, k1, id1).value, COLON);
    assert parts[0] == Trim(p1) == Trim(p2) && parts[1] == k1.Name() == k2.Name();
    assert parts[2] == Escape(id1) == Escape(id2);
    DecodeEscaped(id1);
    DecodeEscaped(id2);
  }

  /** `a:kind:e` with a provider in white space and the encoding of a text that is not empty. */
  ghost predicate Reads(text: Bytes, a: Bytes, kind: Kind, e: Bytes, id: Bytes) {
    && text == a + [COLON] + (kind.Name() + [COLON] + e) && COLON !in a && COLON !in e
    && Decode(e) == Some(id) && IsUtf8(id) && id != [] && IsProvider(Trim(a))
  }

  /** The texts that parse, and to what: white space and other spellings of the encoding are normalised. */
  lemma ParseIff(value: Bytes, q: Bytes)
    ensures Parse(value) == Some(q) <==>
            exists a, kind, e, id :: Reads(Trim(value), a, kind, e, id) && q == Joined(Trim(a), kind, id)
  {
    if Parse(value) == Some(q) {
      var parts := Split(Trim(value), COLON);
      SplitThreeParts(Trim(value));
      assert Reads(Trim(value), parts[0], KindFrom(parts[1]).value, parts[2], Unescape(parts[2]).value);
    }
    if a, kind, e, id :| Reads(Trim(value), a, kind, e, id) && q == Joined(Trim(a), kind, id) {
      ReadsIsParsed(value, a, kind, e, id);
    }
  }

  lemma ReadsIsParsed(value: Bytes, a: Bytes, kind: Kind, e: Bytes, id: Bytes)
    requires Reads(Trim(value), a, kind, e, id)
    ensures Parse(value) == Some(Joined(Trim(a), kind, id))
  {
    KindNames(kind);
    SplitInThree(a, kind.Name(), e);
    PartsAreParsed(value, a, kind.Name(), kind, e, id);
  }

  lemma KindNames(kind: Kind)
    ensures COLON !in kind.Name() && KindFrom(kind.Name()) == Some(kind)
  {
  }

  lemma PartsAreParsed(value: Bytes, a: Bytes, name: Bytes, kind: Kind, e: Bytes, id: Bytes)
    requires Split(Trim(value), COLON) == [a, name, e] && KindFrom(name) == Some(kind)
    requires Unescape(e) == Some(id) && id != [] && IsProvider(Trim(a))
    ensures Parse(value) == Some(Joined(Trim(a), kind, id))
  {
  }

  lemma SplitThreeParts(s: Bytes)
    requires |Split(s, COLON)| == 3
    ensures var parts := Split(s, COLON);
            && s == parts[0] + [COLON] + (parts[1] + [COLON] + parts[2])
            && COLON !in parts[0] && COLON !in parts[1] && COLON !in parts[2]
  {
    SplitParts(s, COLON);
    var parts := Split(s, COLON);
    var rest := s[|parts[0]| + 1..];
    assert parts[1..] == Split(rest, COLON) && parts[1..][0] == parts[1] && parts[1..][1] == parts[2];
    SplitTwoParts(rest);
  }

  lemma SplitTwoParts(s: Bytes)
    requires |Split(s, COLON)| == 2
    ensures var parts := Split(s, COLON);
            s == parts[0] + [COLON] + parts[1] && COLON !in parts[0] && COLON !in parts[1]
  {
    SplitParts(s, COLON);
    var parts := Split(s, COLON);
    var rest := s[|parts[0]| + 1..];
    assert parts[1..] == [parts[1]] == Split(rest, COLON);
    SplitParts(rest, COLON);
  }

  /** Whatever text is parsed, the result is a normal form: it parses to itself. */
  lemma ParseIsNormalForm(value: Bytes)
    requires Parse(value).Some?
    ensures Parse(Parse(value).value) == Parse(value)
  {
    var parts := Split(Trim(value), COLON);
    ParseUndoesNew(parts[0], KindFrom(parts[1]).value, Unescape(parts[2]).value);
  }

  /** An id as the constructors produce it. */
  predicate IsCanonical(q: Bytes) {
    Parse(q) == Some(q)
  }

  lemma CanonicalParts(q: Bytes)
    requires IsCanonical(q)
    ensures KindOf(q).Some? && LocalIdOf(q).Some? && LocalIdOf(q).value != [] && IsProvider(ProviderOf(q))
    ensures q == Joined(ProviderOf(q), KindOf(q).value, LocalIdOf(q).value)
  {
    var parts := Split(Trim(q), COLON);
    ParseUndoesNew(parts[0], KindFrom(parts[1]).value, Unescape(parts[2]).value);
  }

  /** Two canonical ids of one provider are equal exactly when kind and local id are. */
  lemma SameProviderEquality(q: Bytes, kind: Kind, id: Bytes)
    requires IsCanonical(q) && id != []
    ensures New(ProviderOf(q), kind, id).Some? && KindOf(New(ProviderOf(q), kind, id).value) == Some(kind)
    ensures New(ProviderOf(q), kind, id).value == q <==> KindOf(q) == Some(kind) && LocalIdOf(q) == Some(id)
  {
    CanonicalParts(q);
    var p := ProviderOf(q);
    ProviderIsTrimmed(p);
    JoinedParts(p, kind, id);
    if Joined(p, kind, id) == q {
      NewIsInjective(p, kind, id, p, KindOf(q).value, LocalIdOf(q).value);
    }
  }

  // ---- Ids by their parts ----

  /** What a canonical id says; `Text` is the id itself. */
  datatype Id = Id(provider: Bytes, kind: Kind, local: Bytes) {
    predicate Valid() { IsProvider(provider) && local != [] && IsUtf8(local) }

    function Text(): Bytes { Joined(provider, kind, local) }
  }

  /** A further id at the provider of a known one. */
  function AtProvider(provider: Bytes, kind: Kind, local: Bytes): Option<Id> {
    if local == [] then None else Some(Id(provider, kind, local))
  }

  /**
   Working with parts is working with ids: texts of valid parts are canonical and the accessors give the parts
   back.
   */
  lemma TextIsCanonical(id: Id)
    requires id.Valid()
    ensures var q := id.Text();
            IsCanonical(q) && ProviderOf(q) == id.provider && KindOf(q) == Some(id.kind) &&
                LocalIdOf(q) == Some(id.local)
  {
    ProviderIsTrimmed(id.provider);
    ParseUndoesNew(id.provider, id.kind, id.local);
  }

  /** Every canonical id is the text of its parts. */
  lemma CanonicalIsText(q: Bytes)
    requires IsCanonical(q)
    ensures KindOf(q).Some? && LocalIdOf(q).Some?
    ensures var id := Id(ProviderOf(q), KindOf(q).value, LocalIdOf(q).value);
            id.Valid() && id.Text() == q
  {
    CanonicalParts(q);
  }

  /** `new` at a known provider, on texts and on parts. */
  lemma NewIsAtProvider(provider: Bytes, kind: Kind, local: Bytes)
    requires IsProvider(provider)
    ensures New(provider, kind, local) ==
            match AtProvider(provider, kind, local) case Some(id) => Some(id.Text()) case None => None
  {
    ProviderIsTrimmed(provider);
  }
}
