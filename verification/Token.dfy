/** Registry access tokens: a signed payload of user, name and expiry, written as two base64url parts. */
module Token {
  import opened Prelude

  type Byte = b: int | 0 <= b < 256

  type Bytes = seq<Byte>

  const NUL: Byte := 0

  /** The keyed hash over a payload; nothing is assumed about it. */
  type Mac = Bytes -> Bytes

  // ---- Decimal numbers ----

  const MIN_INT64 := -0x8000_0000_0000_0000
  const MAX_INT64 := 0x7FFF_FFFF_FFFF_FFFF

  function Digits(n: nat): (s: Bytes)
    ensures s != [] && NUL !in s && forall i :: 0 <= i < |s| ==> 48 <= s[i] <= 57
  {
    if n < 10 then [48 + n] else Digits(n / 10) + [48 + n % 10]
  }

  function PrintInt(i: int): (s: Bytes)
    ensures NUL !in s
  {
    if i < 0 then [45] + Digits(-i) else Digits(i)
  }

  function ParseDigits(s: Bytes): Option<nat> {
    if s == [] then None
    else
      var d := s[|s| - 1];
      if !(48 <= d <= 57) then None
      else if |s| == 1 then Some(d - 48)
      else
        var high := ParseDigits(s[..|s| - 1]);
        if high.None? then None else Some(high.value * 10 + (d - 48))
  }

  /** A signed decimal number that fits in 64 bits. */
  function ParseInt(s: Bytes): Option<int> {
    var negative := s != [] && s[0] == 45;
    var magnitude: Option<nat> := ParseDigits(if s != [] && (s[0] == 45 || s[0] == 43) then s[1..] else s);
    if magnitude.None? then None
    else
      var n: int := magnitude.value;
      var i := if negative then -n else n;
      if MIN_INT64 <= i <= MAX_INT64 then Some(i) else None
  }

  lemma OneMoreDigit(s: Bytes, d: nat)
    requires s != [] && d < 10 && ParseDigits(s).Some?
    ensures ParseDigits(s + [48 + d]) == Some(ParseDigits(s).value * 10 + d)
  {
    assert (s + [48 + d])[..|s|] == s;
  }

  /** Zeros in front make no difference. */
  lemma {:induction false} PaddedParse(pad: Bytes, n: nat)
    requires pad == [] || ParseDigits(pad) == Some(0)
    ensures ParseDigits(pad + Digits(n)) == Some(n)
    decreases n
  {
    if n >= 10 {
      PaddedParse(pad, n / 10);
      LastDigit(pad, n);
    } else if pad == [] {
      assert pad + Digits(n) == Digits(n);
    } else {
      OneMoreDigit(pad, n);
    }
  }

  lemma LastDigit(pad: Bytes, n: nat)
    requires n >= 10 && ParseDigits(pad + Digits(n / 10)) == Some(n / 10)
    ensures ParseDigits(pad + Digits(n)) == Some(n)
  {
    var q, d := n / 10, n % 10;
    OneMoreDigit(pad + Digits(q), d);
    DigitsEnd(pad, n);
  }

  lemma DigitsEnd(pad: Bytes, n: nat)
    requires n >= 10
    ensures pad + Digits(n) == pad + Digits(n / 10) + [48 + n % 10]
  {}

  lemma DigitsParse(n: nat)
    ensures ParseDigits(Digits(n)) == Some(n)
  {
    var none: Bytes := [];
    PaddedParse(none, n);
    assert none + Digits(n) == Digits(n);
  }

  function Zeros(n: nat): (s: Bytes)
    ensures |s| == n && forall i :: 0 <= i < n ==> s[i] == 48
  {
    seq(n, i => 48)
  }

  lemma {:induction false} ZerosParse(zeros: nat)
    requires zeros > 0
    ensures ParseDigits(Zeros(zeros)) == Some(0)
  {
    if zeros > 1 {
      ZerosParse(zeros - 1);
      OneMoreDigit(Zeros(zeros - 1), 0);
      assert Zeros(zeros) == Zeros(zeros - 1) + [48];
    }
  }

  lemma SignedReads(sign: Byte, digits: Bytes)
    requires sign == 45 || sign == 43
    requires ParseDigits(digits).Some?
    ensures var n: int := ParseDigits(digits).value;
            var i := if sign == 45 then -n else n;
            ParseInt([sign] + digits) == if MIN_INT64 <= i <= MAX_INT64 then Some(i) else None
  {
    assert ([sign] + digits)[1..] == digits;
  }

  lemma UnsignedReads(digits: Bytes)
    requires digits != [] && digits[0] != 45 && digits[0] != 43 && ParseDigits(digits).Some?
    ensures ParseInt(digits) == if ParseDigits(digits).value <= MAX_INT64 then Some(ParseDigits(digits).value) else None
  {}

  lemma IntParses(i: int)
    requires MIN_INT64 <= i <= MAX_INT64
    ensures ParseInt(PrintInt(i)) == Some(i)
  {
    DigitsParse(if i < 0 then -i else i);
    if i < 0 {
      SignedReads(45, Digits(-i));
    } else {
      UnsignedReads(Digits(i));
    }
  }

  lemma NumberParses(zeros: nat, n: nat)
    ensures var digits := Zeros(zeros) + Digits(n);
            ParseDigits(digits) == Some(n) && digits != [] && digits[0] != 45 && digits[0] != 43
  {
    if zeros > 0 {
      ZerosParse(zeros);
    }
    PaddedParse(Zeros(zeros), n);
    assert (Zeros(zeros) + Digits(n))[0] == if zeros > 0 then 48 else Digits(n)[0];
  }

  /** A number may have a sign and leading zeros, and is read exactly if it fits in 64 bits. */
  lemma NumberReadsIff(i: int, plus: bool, zeros: nat)
    ensures var digits := Zeros(zeros) + Digits(if i < 0 then -i else i);
            ParseInt(if i < 0 then [45] + digits else if plus then [43] + digits else digits) ==
              if -0x8000_0000_0000_0000 <= i < 0x8000_0000_0000_0000 then Some(i) else None
  {
    var n: nat := if i < 0 then -i else i;
    var digits := Zeros(zeros) + Digits(n);
    NumberParses(zeros, n);
    if i < 0 || plus {
      SignedReads(if i < 0 then 45 else 43, digits);
    } else {
      UnsignedReads(digits);
    }
  }

  /** Only digits and signs are read as a number. */
  lemma {:induction false} NoStrayBytes(s: Bytes, i: nat)
    requires i < |s| && s[i] == NUL
    ensures ParseDigits(s).None?
  {
    if i < |s| - 1 {
      NoStrayBytes(s[..|s| - 1], i);
    }
  }

  // ---- Unpadded base64url ----

  function Letter(v: nat): char
    requires v < 64
  {
    if v < 26 then (65 + v) as char
    else if v < 52 then (71 + v) as char
    else if v < 62 then (v - 4) as char
    else if v == 62 then '-' else '_'
  }

  function Sextet(c: char): Option<nat> {
    if 'A' <= c <= 'Z' then Some(c as int - 65)
    else if 'a' <= c <= 'z' then Some(c as int - 71)
    else if '0' <= c <= '9' then Some(c as int + 4)
    else if c == '-' then Some(62)
    else if c == '_' then Some(63)
    else None
  }

  function Encode(bs: Bytes): string
    decreases |bs|
  {
    if |bs| == 0 then ""
    else if |bs| == 1 then [Letter(bs[0] / 4), Letter(bs[0] % 4 * 16)]
    else if |bs| == 2 then [Letter(bs[0] / 4), Letter(bs[0] % 4 * 16 + bs[1] / 16), Letter(bs[1] % 16 * 4)]
    else Three(bs[0], bs[1], bs[2]) + Encode(bs[3..])
  }

  function Three(a: Byte, b: Byte, c: Byte): string {
    [Letter(a / 4), Letter(a % 4 * 16 + b / 16), Letter(b % 16 * 4 + c / 64), Letter(c % 64)]
  }

  /** The decoder skips line breaks wherever they stand. */
  function SkipBreaks(s: string): string {
    if s == "" then ""
    else if s[0] == '\r' || s[0] == '\n' then SkipBreaks(s[1..])
    else [s[0]] + SkipBreaks(s[1..])
  }

  /** Four letters at a time; a last group may be two or three letters, whose spare bits do not count. */
  function DecodeGroups(s: string): Option<Bytes>
    decreases |s|
  {
    if s == "" then Some([])
    else if |s| == 1 then None
    else if |s| == 2 then DecodeTwo(s[0], s[1])
    else if |s| == 3 then DecodeThree(s[0], s[1], s[2])
    else
      var group, rest := DecodeFour(s[0], s[1], s[2], s[3]), DecodeGroups(s[4..]);
      if group.None? || rest.None? then None else Some(group.value + rest.value)
  }

  function DecodeTwo(c: char, d: char): Option<Bytes> {
    var v, w := Sextet(c), Sextet(d);
    if v.None? || w.None? then None else Some([Join(v.value, 4, w.value / 16)])
  }

  function DecodeThree(c: char, d: char, e: char): Option<Bytes> {
    var v, w, x := Sextet(c), Sextet(d), Sextet(e);
    if v.None? || w.None? || x.None? then None
    else Some([Join(v.value, 4, w.value / 16), Join(w.value % 16, 16, x.value / 4)])
  }

  function DecodeFour(c: char, d: char, e: char, f: char): Option<Bytes> {
    var v, w, x, y := Sextet(c), Sextet(d), Sextet(e), Sextet(f);
    if v.None? || w.None? || x.None? || y.None? then None
    else Some([Join(v.value, 4, w.value / 16), Join(w.value % 16, 16, x.value / 4), Join(x.value % 4, 64, y.value)])
  }

  function Join(high: nat, scale: nat, low: nat): (b: Byte)
    requires scale in {4, 16, 64} && high * scale <= 256 - scale && low < scale
  {
    high * scale + low
  }

  function Decode(s: string): Option<Bytes> {
    DecodeGroups(SkipBreaks(s))
  }

  lemma LetterReads(v: nat)
    requires v < 64
    ensures Sextet(Letter(v)) == Some(v) && Letter(v) != '.' && Letter(v) != '\r' && Letter(v) != '\n'
  {}

  ghost predicate OnlyLetters(s: string) {
    forall i :: 0 <= i < |s| ==> Sextet(s[i]).Some?
  }

  lemma {:induction false} EncodeLetters(bs: Bytes)
    ensures OnlyLetters(Encode(bs))
    decreases |bs|
  {
    if |bs| > 2 {
      EncodeLetters(bs[3..]);
    }
    GroupReads(if |bs| > 0 then bs[0] else 0, if |bs| > 1 then bs[1] else 0, if |bs| > 2 then bs[2] else 0);
  }

  /** Three bytes as four letters, and what the decoder reads from them. */
  lemma GroupReads(a: Byte, b: Byte, c: Byte)
    ensures Sextet(Letter(a / 4)) == Some(a / 4) && Sextet(Letter(a % 4 * 16)) == Some(a % 4 * 16)
    ensures Sextet(Letter(a % 4 * 16 + b / 16)) == Some(a % 4 * 16 + b / 16)
    ensures Sextet(Letter(b % 16 * 4)) == Some(b % 16 * 4)
    ensures Sextet(Letter(b % 16 * 4 + c / 64)) == Some(b % 16 * 4 + c / 64)
    ensures Sextet(Letter(c % 64)) == Some(c % 64)
  {
    LetterReads(a / 4);
    LetterReads(a % 4 * 16);
    LetterReads(a % 4 * 16 + b / 16);
    LetterReads(b % 16 * 4);
    LetterReads(b % 16 * 4 + c / 64);
    LetterReads(c % 64);
  }

  lemma {:induction false} NothingToSkip(s: string)
    requires OnlyLetters(s)
    ensures SkipBreaks(s) == s
  {
    if s != "" {
      assert Sextet(s[0]).Some?;
      NothingToSkip(s[1..]);
    }
  }

  lemma GroupDecodes(a: Byte, b: Byte, c: Byte)
    ensures DecodeFour(Letter(a / 4), Letter(a % 4 * 16 + b / 16), Letter(b % 16 * 4 + c / 64), Letter(c % 64)) ==
              Some([a, b, c])
  {
    GroupReads(a, b, c);
    Sextets(a, b, c);
  }

  /** The bits of three bytes, put together again from groups of six. */
  lemma Sextets(a: Byte, b: Byte, c: Byte)
    ensures a / 4 * 4 + (a % 4 * 16 + b / 16) / 16 == a
    ensures (a % 4 * 16 + b / 16) % 16 * 16 + (b % 16 * 4 + c / 64) / 4 == b
    ensures (b % 16 * 4 + c / 64) % 4 * 64 + c % 64 == c
  {}

  lemma ThreeDecode(a: Byte, b: Byte, c: Byte, rest: string)
    requires DecodeGroups(rest).Some?
    ensures DecodeGroups(Three(a, b, c) + rest) == Some([a, b, c] + DecodeGroups(rest).value)
  {
    var s := Three(a, b, c) + rest;
    GroupDecodes(a, b, c);
    assert s[4..] == rest && s[..4] == Three(a, b, c);
  }

  /** Two bytes as three letters, whatever the spare bits of the last one. */
  lemma TwoDecode(a: Byte, b: Byte, spare: nat)
    requires spare < 4
    ensures DecodeGroups([Letter(a / 4), Letter(a % 4 * 16 + b / 16), Letter(b % 16 * 4 + spare)]) == Some([a, b])
  {
    GroupReads(a, b, 64 * spare);
    assert a / 4 * 4 + (a % 4 * 16 + b / 16) / 16 == a;
    assert (a % 4 * 16 + b / 16) % 16 * 16 + (b % 16 * 4 + spare) / 4 == b;
  }

  /** One byte as two. */
  lemma OneDecodes(a: Byte, spare: nat)
    requires spare < 16
    ensures DecodeGroups([Letter(a / 4), Letter(a % 4 * 16 + spare)]) == Some([a])
  {
    GroupReads(a, 16 * spare, 0);
    assert a / 4 * 4 + (a % 4 * 16 + spare) / 16 == a;
  }

  lemma {:induction false} GroupsDecode(bs: Bytes)
    ensures DecodeGroups(Encode(bs)) == Some(bs)
    decreases |bs|
  {
    if |bs| > 2 {
      GroupsDecode(bs[3..]);
      ThreeDecode(bs[0], bs[1], bs[2], Encode(bs[3..]));
      assert bs == [bs[0], bs[1], bs[2]] + bs[3..];
    } else if |bs| == 2 {
      TwoDecode(bs[0], bs[1], 0);
      assert bs == [bs[0], bs[1]];
    } else if |bs| == 1 {
      OneDecodes(bs[0], 0);
      assert bs == [bs[0]];
    }
  }

  /** Decoding gives back the bytes, and no letter is a dot. */
  lemma EncodeRoundTrip(bs: Bytes)
    ensures Decode(Encode(bs)) == Some(bs) && '.' !in Encode(bs)
  {
    EncodeLetters(bs);
    NothingToSkip(Encode(bs));
    GroupsDecode(bs);
    forall i | 0 <= i < |Encode(bs)|
      ensures Encode(bs)[i] != '.'
    {
      assert Sextet(Encode(bs)[i]).Some?;
    }
  }

  // ---- Splitting ----

  function IndexOf<T(==)>(s: seq<T>, x: T): (i: nat)
    requires x in s
    ensures i < |s| && s[i] == x && x !in s[..i]
  {
    if s[0] == x then 0 else
      var i := IndexOf(s[1..], x);
      assert s[..i + 1] == [s[0]] + s[1..][..i];
      i + 1
  }

  /** At most `n` fields; the last one keeps any further separators. */
  function SplitN<T(==)>(s: seq<T>, x: T, n: nat): seq<seq<T>>
    decreases n
  {
    if n <= 1 || x !in s then [s] else [s[..IndexOf(s, x)]] + SplitN(s[IndexOf(s, x) + 1..], x, n - 1)
  }

  /** All fields. */
  function Split<T(==)>(s: seq<T>, x: T): seq<seq<T>>
    decreases |s|
  {
    if x !in s then [s] else [s[..IndexOf(s, x)]] + Split(s[IndexOf(s, x) + 1..], x)
  }

  lemma FirstSeparator<T>(a: seq<T>, x: T, b: seq<T>)
    requires x !in a
    ensures x in a + [x] + b && IndexOf(a + [x] + b, x) == |a|
    ensures (a + [x] + b)[..|a|] == a && (a + [x] + b)[|a| + 1..] == b
  {
    var s := a + [x] + b;
    assert s[|a|] == x;
    assert forall k :: 0 <= k < |a| ==> s[k] == a[k];
    assert forall k :: |a| < k <= |s| ==> s[..k][|a|] == x;
  }

  // ---- Tokens ----

  function Payload(userId: int, username: Bytes, expiry: int): Bytes {
    PrintInt(userId) + [NUL] + (username + [NUL] + PrintInt(expiry))
  }

  function Mint(mac: Mac, userId: int, username: Bytes, expiry: int): string {
    var payload := Payload(userId, username, expiry);
    Encode(payload) + ['.'] + Encode(mac(payload))
  }

  /** The name a token was minted for, if its signature and its expiry hold. */
  function Validate(mac: Mac, token: string, now: int): Option<Bytes> {
    var parts := Split(token, '.');
    if |parts| != 2 then None
    else
      var payload, sig := Decode(parts[0]), Decode(parts[1]);
      if payload.None? || sig.None? || sig.value != mac(payload.value) then None
      else ReadPayload(payload.value, now)
  }

  function ReadPayload(payload: Bytes, now: int): Option<Bytes> {
    var fields := SplitN(payload, NUL, 3);
    if |fields| != 3 then None
    else
      var expiry := ParseInt(fields[2]);
      if expiry.None? || now >= expiry.value then None else Some(fields[1])
  }

  /** The three fields of a payload, told apart by its first two separators. */
  lemma ThreeFields(a: Bytes, b: Bytes, c: Bytes)
    requires NUL !in a && NUL !in b
    ensures SplitN(a + [NUL] + (b + [NUL] + c), NUL, 3) == [a, b, c]
  {
    FirstSeparator(a, NUL, b + [NUL] + c);
    FirstSeparator(b, NUL, c);
    assert SplitN(b + [NUL] + c, NUL, 2) == [b] + SplitN(c, NUL, 1);
  }

  /** The three fields read back as what they were made from. */
  lemma FieldsReadBack(userId: int, username: Bytes, expiry: int)
    requires MIN_INT64 <= userId <= MAX_INT64 && MIN_INT64 <= expiry <= MAX_INT64 && NUL !in username
    ensures var fields := SplitN(Payload(userId, username, expiry), NUL, 3);
            && |fields| == 3 && ParseInt(fields[0]) == Some(userId) && fields[1] == username
            && ParseInt(fields[2]) == Some(expiry)
  {
    ThreeFields(PrintInt(userId), username, PrintInt(expiry));
    IntParses(userId);
    IntParses(expiry);
  }

  lemma PayloadReads(userId: int, username: Bytes, expiry: int, now: int)
    requires MIN_INT64 <= expiry <= MAX_INT64
    ensures ReadPayload(Payload(userId, username, expiry), now) == if NUL !in username && now < expiry then
              Some(username) else None
  {
    if NUL !in username {
      ThreeFields(PrintInt(userId), username, PrintInt(expiry));
      IntParses(expiry);
    } else {
      PayloadSpoilt(userId, username, expiry, now);
    }
  }

  lemma Regroup(username: Bytes, i: nat, number: Bytes)
    requires i < |username| && username[i] == NUL
    ensures username + [NUL] + number == username[..i] + [NUL] + (username[i + 1..] + [NUL] + number)
  {}

  /** A separator inside the name ends up in the expiry, which then is no number. */
  lemma PayloadSpoilt(userId: int, username: Bytes, expiry: int, now: int)
    requires NUL in username
    ensures ReadPayload(Payload(userId, username, expiry), now).None?
  {
    var i := IndexOf(username, NUL);
    var name, more := username[..i], username[i + 1..];
    var tail := more + [NUL] + PrintInt(expiry);
    Regroup(username, i, PrintInt(expiry));
    ThreeFields(PrintInt(userId), name, tail);
    StrayInNumber(more, PrintInt(expiry));
  }

  lemma StrayInNumber(a: Bytes, b: Bytes)
    ensures ParseInt(a + [NUL] + b).None?
  {
    var s := a + [NUL] + b;
    if s[0] == 45 || s[0] == 43 {
      NoStrayBytes(s[1..], |a| - 1);
    } else {
      NoStrayBytes(s, |a|);
    }
  }

  lemma TwoParts(a: string, b: string)
    requires '.' !in a && '.' !in b
    ensures Split(a + ['.'] + b, '.') == [a, b]
  {
    FirstSeparator(a, '.', b);
    assert Split(b, '.') == [b];
  }

  /**
   * For every user, name, expiry and key: a minted token validates to its name exactly while the name
   * is free of NUL bytes and the expiry has not come; otherwise it does not validate.
   */
  lemma MintedValidatesIff(mac: Mac, userId: int, username: Bytes, expiry: int, now: int)
    requires MIN_INT64 <= expiry <= MAX_INT64
    ensures Validate(mac, Mint(mac, userId, username, expiry), now) == if NUL !in username && now < expiry then
              Some(username) else None
  {
    var payload := Payload(userId, username, expiry);
    EncodeRoundTrip(payload);
    EncodeRoundTrip(mac(payload));
    TwoParts(Encode(payload), Encode(mac(payload)));
    PayloadReads(userId, username, expiry, now);
  }

  /** The token's second part signs its first. */
  ghost predicate Signed(mac: Mac, token: string, payload: Bytes) {
    var parts := Split(token, '.');
    |parts| == 2 && Decode(parts[0]) == Some(payload) && Decode(parts[1]) == Some(mac(payload))
  }

  /** The payload names the user between its first two separators, and its expiry is still to come. */
  ghost predicate Grants(payload: Bytes, username: Bytes, now: int) {
    exists head: Bytes, tail: Bytes :: GrantedIn(payload, head, username, tail, now)
  }

  predicate GrantedIn(payload: Bytes, head: Bytes, username: Bytes, tail: Bytes, now: int) {
    && payload == head + [NUL] + (username + [NUL] + tail) && NUL !in head && NUL !in username
    && ParseInt(tail).Some? && now < ParseInt(tail).value
  }

  lemma FieldsMean(s: Bytes, n: nat)
    requires n > 1 && |SplitN(s, NUL, n)| > 1
    ensures NUL in s && s == s[..IndexOf(s, NUL)] + [NUL] + s[IndexOf(s, NUL) + 1..]
    ensures SplitN(s, NUL, n) == [s[..IndexOf(s, NUL)]] + SplitN(s[IndexOf(s, NUL) + 1..], NUL, n - 1)
  {}

  lemma ThreeMean(payload: Bytes)
    requires |SplitN(payload, NUL, 3)| == 3
    ensures var fields := SplitN(payload, NUL, 3);
            && payload == fields[0] + [NUL] + (fields[1] + [NUL] + fields[2])
            && NUL !in fields[0] && NUL !in fields[1]
  {
    FieldsMean(payload, 3);
    var rest := payload[IndexOf(payload, NUL) + 1..];
    FieldsMean(rest, 2);
  }

  lemma ReadMeans(payload: Bytes, now: int)
    requires ReadPayload(payload, now).Some?
    ensures Grants(payload, ReadPayload(payload, now).value, now)
  {
    var fields := SplitN(payload, NUL, 3);
    ThreeMean(payload);
    assert GrantedIn(payload, fields[0], fields[1], fields[2], now);
  }

  lemma GrantedReads(payload: Bytes, head: Bytes, username: Bytes, tail: Bytes, now: int)
    requires GrantedIn(payload, head, username, tail, now)
    ensures ReadPayload(payload, now) == Some(username)
  {
    ThreeFields(head, username, tail);
  }

  lemma GrantsRead(payload: Bytes, username: Bytes, now: int)
    requires Grants(payload, username, now)
    ensures ReadPayload(payload, now) == Some(username)
  {
    var head: Bytes, tail: Bytes :| GrantedIn(payload, head, username, tail, now);
    GrantedReads(payload, head, username, tail, now);
  }

  /** Whatever text is presented: it validates to a name exactly if it is signed with the key and grants that name. */
  lemma AcceptedIff(mac: Mac, token: string, username: Bytes, now: int)
    ensures Validate(mac, token, now) == Some(username) <==>
            exists payload :: Signed(mac, token, payload) && Grants(payload, username, now)
  {
    if Validate(mac, token, now) == Some(username) {
      var payload := Decode(Split(token, '.')[0]).value;
      ReadMeans(payload, now);
      assert Signed(mac, token, payload);
    }
    if payload :| Signed(mac, token, payload) && Grants(payload, username, now) {
      GrantsRead(payload, username, now);
    }
  }

  /** The letters in a token: user 7, a name of two odd bytes, expiry 9. */
  lemma TokenText()
    ensures Encode(Payload(7, [0xFB, 0xFF], 9)) == "NwD7_wA5" && Encode([0xF8]) == "-A"
  {
    assert Digits(7) == [55] && Digits(9) == [57];
    var text := Payload(7, [0xFB, 0xFF], 9);
    assert text == [55, 0, 0xFB, 0xFF, 0, 57];
    assert text[3..] == [0xFF, 0, 57] && text[3..][3..] == [];
    assert Encode(text[3..]) == Three(0xFF, 0, 57) + Encode([]);
  }

  // ---- Line breaks ----

  lemma {:induction false} SkipConcat(a: string, b: string)
    ensures SkipBreaks(a + b) == SkipBreaks(a) + SkipBreaks(b)
  {
    if a == "" {
      assert a + b == b;
    } else {
      var c, rest := a[0], a[1..];
      assert a == [c] + rest && a + b == [c] + (rest + b);
      SkipConcat(rest, b);
      SkipFirst(c, rest);
      SkipFirst(c, rest + b);
      Associative([c], SkipBreaks(rest), SkipBreaks(b));
    }
  }

  lemma Associative(a: string, b: string, c: string)
    ensures a + (b + c) == a + b + c
  {}

  lemma SkipFirst(c: char, s: string)
    ensures SkipBreaks([c] + s) == if c == '\r' || c == '\n' then SkipBreaks(s) else [c] + SkipBreaks(s)
  {
    assert ([c] + s)[1..] == s;
  }

  lemma {:induction false} SkipKeeps(s: string)
    ensures '.' in SkipBreaks(s) <==> '.' in s
    ensures SkipBreaks(SkipBreaks(s)) == SkipBreaks(s)
  {
    if s != "" {
      SkipKeeps(s[1..]);
      assert s == [s[0]] + s[1..];
    }
  }

  function SkipInAll(parts: seq<string>): seq<string> {
    seq(|parts|, i requires 0 <= i < |parts| => SkipBreaks(parts[i]))
  }

  lemma SplitAt(a: string, b: string)
    requires '.' !in a
    ensures Split(a + (['.'] + b), '.') == [a] + Split(b, '.')
  {
    FirstSeparator(a, '.', b);
    assert a + (['.'] + b) == a + ['.'] + b;
  }

  lemma {:induction false} SplitSkips(s: string)
    ensures Split(SkipBreaks(s), '.') == SkipInAll(Split(s, '.'))
    decreases |s|
  {
    SkipKeeps(s);
    if '.' in s {
      var i := IndexOf(s, '.');
      var a, b := s[..i], s[i + 1..];
      assert s == a + (['.'] + b);
      SplitSkips(b);
      SkipKeeps(a);
      SkipConcat(a, ['.'] + b);
      SkipConcat(['.'], b);
      SplitAt(a, b);
      SplitAt(SkipBreaks(a), SkipBreaks(b));
      SkipMore(a, Split(b, '.'));
    }
  }

  lemma SkipMore(a: string, parts: seq<string>)
    ensures SkipInAll([a] + parts) == [SkipBreaks(a)] + SkipInAll(parts)
  {}

  /** Line breaks anywhere in a token make no difference, so the text of a token is not unique. */
  lemma BreaksDoNotMatter(mac: Mac, token: string, now: int)
    ensures Validate(mac, SkipBreaks(token), now) == Validate(mac, token, now)
  {
    SplitSkips(token);
    var parts := Split(token, '.');
    if |parts| == 2 {
      SkipKeeps(parts[0]);
      SkipKeeps(parts[1]);
    }
  }
}
