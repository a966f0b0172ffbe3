/**
 The rotating QR payload: a 105-byte record with a version, a window
 timestamp, a ticket id field, a nonce and a signature over the first 41 bytes,
 written as base64url.  A ticket id is its UTF-8 bytes.
 */
module TicketPayloads {
  import opened Wrappers
  import opened DataViews
  import opened Base64Url

  const PAYLOAD_VERSION: byte := 1
  const PAYLOAD_WINDOW_S := 15
  const SCANNER_CLOCK_DRIFT_S := 60
  const TIMESTAMP := 1
  const TICKET_ID := 9
  const NONCE := 25
  const SIGNATURE := 41
  const TOTAL := 105

  /** A detached signature scheme, as far as tickets rely on one. */
  datatype Scheme = Scheme(sign: (Bytes, Bytes) -> Bytes,
                           verify: (Bytes, Bytes, Bytes) -> bool,
                           publicKey: Bytes -> Bytes)
  {
    ghost predicate Lawful() {
      forall message: Bytes, secret: Bytes :: |secret| == 64 ==>
        && |sign(message, secret)| == 64
        && |publicKey(secret)| == 32
        && verify(message, sign(message, secret), publicKey(secret))
    }
  }

  // ---------- fields ----------

  /** The id cut or zero-padded to `n` bytes. */
  function FixedField(id: Bytes, n: nat): (f: Bytes)
    ensures |f| == n
  {
    if |id| >= n then id[..n] else id + Zeros(n - |id|)
  }

  function StripZeros(b: Bytes): Bytes {
    if b != [] && b[|b| - 1] == 0 then StripZeros(b[..|b| - 1]) else b
  }

  predicate EndsInZero(b: Bytes) {
    b != [] && b[|b| - 1] == 0
  }

  lemma {:induction false} StripPadded(id: Bytes, n: nat)
    requires !EndsInZero(id)
    ensures StripZeros(id + Zeros(n)) == id
  {
    if n == 0 {
      assert id + Zeros(0) == id;
    } else {
      assert (id + Zeros(n))[..|id| + n - 1] == id + Zeros(n - 1);
      StripPadded(id, n - 1);
    }
  }

  lemma {:induction false} StripShape(b: Bytes)
    ensures !EndsInZero(StripZeros(b))
    ensures |StripZeros(b)| <= |b| && b == StripZeros(b) + Zeros(|b| - |StripZeros(b)|)
  {
    if !EndsInZero(b) {
    } else {
      StripShape(b[..|b| - 1]);
      assert b == b[..|b| - 1] + [0];
    }
  }

  /** A field holds the id's first bytes, as far as both go, and zeros behind them. */
  lemma {:induction false} FieldContents(id: Bytes, n: nat, i: nat)
    requires i < n
    ensures FixedField(id, n)[i] == if i < |id| then id[i] else 0
  {
  }

  /** The id comes back from its field exactly when it fits and does not end in a zero byte. */
  lemma {:induction false} FieldRoundTripIff(id: Bytes, n: nat)
    ensures StripZeros(FixedField(id, n)) == id <==> |id| <= n && !EndsInZero(id)
  {
    StripShape(FixedField(id, n));
    if |id| <= n && !EndsInZero(id) {
      StripPadded(id, n - |id|);
      assert |id| == n ==> FixedField(id, n) == id + Zeros(0);
    }
  }

  method DecodeFixedString(bytes: Bytes) returns (id: Bytes)
    ensures id == StripZeros(bytes)
  {
    var end := |bytes|;
    assert bytes[..end] == bytes;
    while end > 0 && bytes[end - 1] == 0
      invariant 0 <= end <= |bytes|
      invariant StripZeros(bytes[..end]) == StripZeros(bytes)
    {
      assert bytes[..end][..end - 1] == bytes[..end - 1];
      end := end - 1;
    }
    id := bytes[..end];
  }

  // ---------- generation ----------

  /** The start of the 15-second window, in Unix seconds. */
  function Window(nowMs: nat): nat {
    nowMs / 1000 / PAYLOAD_WINDOW_S * PAYLOAD_WINDOW_S
  }

  function Header(id: Bytes, timestampS: nat, nonce: Bytes): Bytes {
    [PAYLOAD_VERSION] + Uint64BE(timestampS) + FixedField(id, NONCE - TICKET_ID) + nonce
  }

  /** `Uint8Array.set`. */
  method Set(buf: array<byte>, offset: nat, b: Bytes)
    requires offset + |b| <= buf.Length
    modifies buf
    ensures buf[..] == old(buf[..offset]) + b + old(buf[offset + |b|..])
  {
    for i := 0 to |b|
      invariant buf[..] == old(buf[..offset]) + b[..i] + old(buf[offset + i..])
    {
      buf[offset + i] := b[i];
    }
  }

  /** `writeUint64BE`: two 32-bit words, the low one by `>>> 0`. */
  method WriteUint64BE(buf: array<byte>, offset: nat, value: nat)
    requires offset + 8 <= buf.Length
    modifies buf
    ensures buf[..] == old(buf[..offset]) + Uint64BE(value) + old(buf[offset + 8..])
  {
    Set(buf, offset, Uint32BE(value / TWO_32));
    Set(buf, offset + 4, Uint32BE(value % TWO_32));
  }

  datatype PayloadError = BadSecretKey(length: nat) | WrongLength(length: nat) | UnsupportedVersion(version: byte)

  /** The clock and the random nonce are parameters. */
  method GenerateRotatingPayload(scheme: Scheme, id: Bytes, secret: Bytes, nonce: Bytes, nowMs: nat)
    returns (r: Result<string, PayloadError>)
    requires scheme.Lawful() && |nonce| == 16 && nowMs <= MAX_SAFE_INTEGER
    ensures |secret| != 64 ==> r == Err(BadSecretKey(|secret|))
    ensures |secret| == 64 ==> r == Ok(Payload(scheme, id, secret, nonce, nowMs))
  {
    if |secret| != 64 {
      return Err(BadSecretKey(|secret|));
    }
    var timestampS := Window(nowMs);
    var buf := new byte[TOTAL](_ => 0);
    buf[0] := PAYLOAD_VERSION;
    assert buf[..1] == [PAYLOAD_VERSION];
    WriteUint64BE(buf, TIMESTAMP, timestampS);
    assert buf[..9] == [PAYLOAD_VERSION] + Uint64BE(timestampS);
    Set(buf, TICKET_ID, FixedField(id, 16));
    assert buf[..25] == [PAYLOAD_VERSION] + Uint64BE(timestampS) + FixedField(id, 16);
    Set(buf, NONCE, nonce);
    assert buf[..41] == Header(id, timestampS, nonce);
    var signature := scheme.sign(buf[..SIGNATURE], secret);
    Set(buf, SIGNATURE, signature);
    assert buf[..] == Header(id, timestampS, nonce) + signature;
    var encoded := ToBase64Url(buf[..]);
    r := Ok(encoded);
  }

  /** The text a ticket screen shows at `nowMs`. */
  function Payload(scheme: Scheme, id: Bytes, secret: Bytes, nonce: Bytes, nowMs: nat): string {
    var header := Header(id, Window(nowMs), nonce);
    Encode(header + scheme.sign(header, secret))
  }

  // ---------- parsing ----------

  datatype Parsed = Parsed(version: byte, timestampS: nat, ticketId: Bytes, nonce: Bytes,
                           signature: Bytes, signedMessage: Bytes)

  function Parse(encoded: string): Result<Parsed, PayloadError> {
    var buf := Decode(encoded);
    if |buf| != TOTAL then Err(WrongLength(|buf|))
    else if buf[0] != PAYLOAD_VERSION then Err(UnsupportedVersion(buf[0]))
    else Ok(Parsed(buf[0], ReadUint64(buf[TIMESTAMP..TICKET_ID]), StripZeros(buf[TICKET_ID..NONCE]),
                   buf[NONCE..SIGNATURE], buf[SIGNATURE..], buf[..SIGNATURE]))
  }

  /** Every generated payload parses to what went into it; the id as its field keeps it. */
  lemma {:induction false} ParseGenerated(scheme: Scheme, id: Bytes, secret: Bytes, nonce: Bytes, nowMs: nat)
    requires scheme.Lawful() && |secret| == 64 && |nonce| == 16 && nowMs <= MAX_SAFE_INTEGER
    ensures
      var header := Header(id, Window(nowMs), nonce);
      Parse(Payload(scheme, id, secret, nonce, nowMs)) ==
      Ok(Parsed(PAYLOAD_VERSION, Window(nowMs), StripZeros(FixedField(id, 16)), nonce,
                scheme.sign(header, secret), header))
    ensures Parse(Payload(scheme, id, secret, nonce, nowMs)).value.ticketId == id <==> |id| <= 16 && !EndsInZero(id)
  {
    var ts := Window(nowMs);
    var header := Header(id, ts, nonce);
    var buf := header + scheme.sign(header, secret);
    DecodeEncode(buf);
    HeaderFields(id, ts, nonce);
    assert buf[..41] == header && buf[41..] == scheme.sign(header, secret);
    assert buf[1..9] == header[1..9] && buf[9..25] == header[9..25] && buf[25..41] == header[25..41];
    Uint64RoundTrip(ts);
    FieldRoundTripIff(id, 16);
  }

  lemma {:induction false} HeaderFields(id: Bytes, ts: nat, nonce: Bytes)
    requires |nonce| == 16
    ensures var h := Header(id, ts, nonce);
      && |h| == 41 && h[0] == 1 && h[1..9] == Uint64BE(ts)
      && h[9..25] == FixedField(id, 16) && h[25..41] == nonce
  {
  }

  /** A text parses exactly when it decodes to 105 bytes of version 1; otherwise the error says what is wrong. */
  lemma {:induction false} ParseOkIff(encoded: string)
    ensures
      var r, buf := Parse(encoded), Decode(encoded);
      && (r.Ok? <==> |buf| == 105 && buf[0] == 1)
      && (r.Ok? ==> r.value.version == 1)
      && (|buf| != 105 ==> r == Err(WrongLength(|buf|)))
      && (|buf| == 105 && buf[0] != 1 ==> r == Err(UnsupportedVersion(buf[0])))
  {
  }

  /** Parsing loses nothing: signed message and bytes can be rebuilt from the parsed fields. */
  lemma {:induction false} ParseIsFaithful(encoded: string)
    requires Parse(encoded).Ok?
    ensures
      var p := Parse(encoded).value;
      && Header(p.ticketId, p.timestampS, p.nonce) == p.signedMessage
      && p.signedMessage + p.signature == Decode(encoded)
      && (Encode(p.signedMessage + p.signature) == encoded <==> Canonical(encoded))
  {
    var buf, p := Decode(encoded), Parse(encoded).value;
    Uint64Bytes(buf[1..9]);
    StripShape(buf[9..25]);
    assert FixedField(p.ticketId, 16) == buf[9..25];
    Slices(buf);
    EncodeDecodeIff(encoded);
  }

  lemma {:induction false} Slices(buf: Bytes)
    requires |buf| == TOTAL
    ensures buf[..41] == [buf[0]] + buf[1..9] + buf[9..25] + buf[25..41]
    ensures buf == buf[..41] + buf[41..]
  {
  }

  // ---------- verification ----------

  datatype Verdict =
    | Accepted(ticketId: Bytes, timestampS: nat)
    | BadPayload
    | InvalidSignature
    | ExpiredTimestamp
    | KeyRejected // the signature library throws on a public key that is not 32 bytes

  function Abs(x: int): nat {
    if x < 0 then -x else x
  }

  function Verify(scheme: Scheme, encoded: string, publicKey: Bytes, nowMs: int): Verdict {
    match Parse(encoded)
    case Err(_) => BadPayload
    case Ok(p) =>
      if |publicKey| != 32 then KeyRejected
      else if !scheme.verify(p.signedMessage, p.signature, publicKey) then InvalidSignature
      else if Abs(nowMs / 1000 - p.timestampS) > PAYLOAD_WINDOW_S + SCANNER_CLOCK_DRIFT_S then ExpiredTimestamp
      else Accepted(p.ticketId, p.timestampS)
  }

  /** The signature of the parsed payload verifies over its signed message under the given key. */
  predicate Signed(scheme: Scheme, p: Parsed, publicKey: Bytes) {
    |publicKey| == 32 && scheme.verify(p.signedMessage, p.signature, publicKey)
  }

  /** The scanner's clock is within 75 seconds of the payload's window. */
  predicate Timely(p: Parsed, nowMs: int) {
    -75 <= nowMs / 1000 - p.timestampS <= 75
  }

  /** A payload is accepted exactly when it parses, is signed and is timely; a refusal names the first that fails. */
  lemma {:induction false} VerifyExact(scheme: Scheme, encoded: string, publicKey: Bytes, nowMs: int)
    ensures
      var v, r := Verify(scheme, encoded, publicKey, nowMs), Parse(encoded);
      && (v.Accepted? <==> r.Ok? && Signed(scheme, r.value, publicKey) && Timely(r.value, nowMs))
      && (v.Accepted? ==> v.ticketId == r.value.ticketId && v.timestampS == r.value.timestampS)
      && (v.BadPayload? <==> r.Err?)
      && (v.KeyRejected? <==> r.Ok? && |publicKey| != 32)
      && (v.InvalidSignature? <==> r.Ok? && |publicKey| == 32 && !Signed(scheme, r.value, publicKey))
      && (v.ExpiredTimestamp? <==> r.Ok? && Signed(scheme, r.value, publicKey) && !Timely(r.value, nowMs))
  {
  }

  /** An honest payload is accepted exactly within 75 seconds of its window boundary, and expired otherwise. */
  lemma {:induction false} VerifyGenerated(scheme: Scheme, id: Bytes, secret: Bytes, nonce: Bytes, shownMs: nat,
                                           scannedMs: int)
    requires scheme.Lawful() && |secret| == 64 && |nonce| == 16 && shownMs <= MAX_SAFE_INTEGER
    ensures
      Verify(scheme, Payload(scheme, id, secret, nonce, shownMs), scheme.publicKey(secret), scannedMs) ==
      if Abs(scannedMs / 1000 - Window(shownMs)) <= 75
      then Accepted(StripZeros(FixedField(id, 16)), Window(shownMs)) else ExpiredTimestamp
  {
    ParseGenerated(scheme, id, secret, nonce, shownMs);
  }

  /**
   In terms of the seconds `t` shown and `n` scanned: always in time from 75
   seconds early to 61 late, never more than 89 early or 75 late, and between
   those bounds it depends on where `t` falls in its window.
   */
  lemma {:induction false} WindowBounds(shownMs: nat, scannedMs: int)
    ensures
      var t, n := shownMs / 1000, scannedMs / 1000;
      && Window(shownMs) == t - t % 15
      && (t - 75 <= n <= t + 61 ==> Abs(n - Window(shownMs)) <= 75)
      && (Abs(n - Window(shownMs)) <= 75 ==> t - 89 <= n <= t + 75)
      && (t % 15 == 0 ==> (Abs(n - Window(shownMs)) <= 75 <==> t - 75 <= n <= t + 75))
      && (t % 15 == 14 ==> (Abs(n - Window(shownMs)) <= 75 <==> t - 89 <= n <= t + 61))
  {
  }
}
