/** The commitment a miner puts on chain: `v2|campaign|baseline|patch hash|url`, perhaps followed by
    the block and index of a fee payment. */
module Commitment {
  import opened Basics
  import opened Strings

  datatype Error = NotAUuid | ContainsBar | NotAUrl | PaymentIncomplete | PaymentOutOfRange | TooLong | NotParseable

  datatype Payment = Payment(block: nat, tx: nat)

  /** What a commitment says. */
  datatype Fields = Fields(campaign: string, baseline: string, patchHash: string, url: string, payment: Option<Payment>)

  const MAX_PLAINTEXT_BYTES := 384
  const MAX_PAYMENT_REF := 0x7fff_ffff

  // ---------------------------------------------------------------------------
  // Characters and numbers

  predicate IsDigit(c: char) {
    '0' <= c <= '9'
  }

  predicate IsHex(c: char) {
    IsDigit(c) || 'a' <= c <= 'f'
  }

  function LowerChar(c: char): char {
    if 'A' <= c <= 'Z' then (c as int + 32) as char else c
  }

  /** Lower case. Letters beyond ASCII stay: none of them has a lower case within the formats here. */
  function Lower(s: string): (r: string)
    ensures |r| == |s|
    ensures forall i :: 0 <= i < |s| ==> r[i] == LowerChar(s[i])
  {
    seq(|s|, i requires 0 <= i < |s| => LowerChar(s[i]))
  }

  function DigitChar(d: nat): (c: char)
    requires d < 10
    ensures IsDigit(c)
  {
    (d + '0' as int) as char
  }

  function DigitValue(c: char): (d: nat)
    requires IsDigit(c)
    ensures d < 10
  {
    c as int - '0' as int
  }

  predicate AllDigits(s: string) {
    forall i :: 0 <= i < |s| ==> IsDigit(s[i])
  }

  /** A number in decimal. */
  function Decimal(n: nat): (s: string)
    ensures s != [] && AllDigits(s)
  {
    if n < 10 then [DigitChar(n)] else Decimal(n / 10) + [DigitChar(n % 10)]
  }

  function DecimalValue(s: string): nat
    requires AllDigits(s)
  {
    if s == [] then 0 else 10 * DecimalValue(s[..|s| - 1]) + DigitValue(s[|s| - 1])
  }

  /** Reading back a printed number gives the number. */
  lemma {:induction false} DecimalRoundTrip(n: nat)
    ensures DecimalValue(Decimal(n)) == n
  {
    if n >= 10 {
      DecimalRoundTrip(n / 10);
      var s := Decimal(n);
      assert s[..|s| - 1] == Decimal(n / 10);
    } else {
      assert Decimal(n)[..0] == [];
    }
  }

  /** No digits spell a number in fewer characters than it is printed with. */
  lemma {:induction false} DecimalShortest(s: string)
    requires s != [] && AllDigits(s)
    ensures |Decimal(DecimalValue(s))| <= |s|
  {
    var init := s[..|s| - 1];
    if DecimalValue(s) >= 10 {
      assert DecimalValue(s) / 10 == DecimalValue(init);
      DecimalShortest(init);
    }
  }

  // ---------------------------------------------------------------------------
  // Formats

  predicate HexFrom(s: string, from: nat, to: nat)
    requires from <= to <= |s|
  {
    forall i :: from <= i < to ==> IsHex(s[i])
  }

  predicate IsGitSha(s: string) {
    |s| == 40 && HexFrom(s, 0, 40)
  }

  predicate IsPatchHash(s: string) {
    |s| == 71 && s[..7] == "sha256:" && HexFrom(s, 7, 71)
  }

  predicate IsHyphen(i: nat) {
    i == 8 || i == 13 || i == 18 || i == 23
  }

  /** A printed UUID, up to case. */
  predicate IsUuid(s: string) {
    |s| == 36 && forall i :: 0 <= i < 36 ==> if IsHyphen(i) then s[i] == '-' else IsHex(LowerChar(s[i]))
  }

  /** A UUID value: 128 bits, as hexadecimal digits. */
  type Uuid = d: seq<int> | |d| == 32 && forall k :: 0 <= k < 32 ==> 0 <= d[k] < 16 witness seq(32, _ => 0)

  function HexChar(d: int): (c: char)
    requires 0 <= d < 16
    ensures IsHex(c)
  {
    if d < 10 then (d + '0' as int) as char else (d - 10 + 'a' as int) as char
  }

  function HexValue(c: char): (d: int)
    requires IsHex(LowerChar(c))
    ensures 0 <= d < 16 && HexChar(d) == LowerChar(c)
  {
    var l := LowerChar(c);
    if IsDigit(l) then l as int - '0' as int else l as int - 'a' as int + 10
  }

  /** Where a digit of a UUID stands in its text, and which digit stands there. */
  function Place(k: nat): (i: nat) {
    if k < 8 then k else if k < 12 then k + 1 else if k < 16 then k + 2 else if k < 20 then k + 3 else k + 4
  }

  function DigitAt(i: nat): nat
    requires !IsHyphen(i)
  {
    if i < 8 then i else if i < 13 then i - 1 else if i < 18 then i - 2 else if i < 23 then i - 3 else i - 4
  }

  lemma DigitAtPlace(k: nat)
    ensures !IsHyphen(Place(k)) && DigitAt(Place(k)) == k
  {
  }

  lemma PlaceOfDigit(i: nat)
    requires i < 36 && !IsHyphen(i)
    ensures DigitAt(i) < 32 && Place(DigitAt(i)) == i
  {
  }

  function PrintUuid(u: Uuid): (s: string)
    ensures |s| == 36
    ensures forall i :: 0 <= i < 36 ==> s[i] == UuidChar(u, i)
  {
    seq(36, i requires 0 <= i < 36 => UuidChar(u, i))
  }

  function UuidChar(u: Uuid, i: nat): char
    requires i < 36
  {
    if IsHyphen(i) then '-' else (PlaceOfDigit(i); HexChar(u[DigitAt(i)]))
  }

  function ReadUuid(s: string): (u: Uuid)
    requires IsUuid(s)
    ensures forall k :: 0 <= k < 32 ==> u[k] == UuidDigit(s, k)
  {
    seq(32, k requires 0 <= k < 32 => UuidDigit(s, k))
  }

  function UuidDigit(s: string, k: nat): (d: int)
    requires IsUuid(s) && k < 32
    ensures 0 <= d < 16
  {
    DigitAtPlace(k);
    assert Place(k) < 36;
    HexValue(s[Place(k)])
  }

  /** Printing a UUID and reading it back. */
  lemma UuidRoundTrip(u: Uuid)
    ensures IsUuid(PrintUuid(u)) && ReadUuid(PrintUuid(u)) == u
  {
    var s := PrintUuid(u);
    forall i | 0 <= i < 36 ensures if IsHyphen(i) then s[i] == '-' else IsHex(LowerChar(s[i])) {
      assert s[i] == UuidChar(u, i);
    }
    forall k | 0 <= k < 32 ensures ReadUuid(s)[k] == u[k] {
      DigitAtPlace(k);
      assert s[Place(k)] == UuidChar(u, Place(k)) == HexChar(u[k]);
      assert ReadUuid(s)[k] == UuidDigit(s, k);
      HexCharInjective(u[k], ReadUuid(s)[k]);
    }
  }

  lemma HexCharInjective(d: int, e: int)
    requires 0 <= d < 16 && 0 <= e < 16
    ensures HexChar(d) == HexChar(e) ==> d == e
    ensures LowerChar(HexChar(d)) == HexChar(d)
  {
  }

  /** Reading a UUID and printing it puts it in lower case. */
  lemma ReadUuidPrints(s: string)
    requires IsUuid(s)
    ensures PrintUuid(ReadUuid(s)) == Lower(s)
  {
  }

  predicate IsUrl(s: string) {
    "https://" <= s || "http://" <= s
  }

  /** Bytes of a character in UTF-8. */
  function Utf8Length(c: char): (n: nat)
    ensures n >= 1
  {
    var k := c as int;
    if k < 0x80 then 1 else if k < 0x800 then 2 else if k < 0x1_0000 then 3 else 4
  }

  function Bytes(s: string): nat {
    if s == [] then 0 else Bytes(s[..|s| - 1]) + Utf8Length(s[|s| - 1])
  }

  // ---------------------------------------------------------------------------
  // Parsing

  function ParsePaymentRef(block: string, tx: string): Option<Payment> {
    var b, t := Trim(block, IsTextSpace), Trim(tx, IsTextSpace);
    if b == [] || !AllDigits(b) || t == [] || !AllDigits(t) then None
    else
      var blockNumber, index := DecimalValue(b), DecimalValue(t);
      if blockNumber < 1 || blockNumber > MAX_PAYMENT_REF || index > MAX_PAYMENT_REF then None
      else Some(Payment(blockNumber, index))
  }

  function Parse(raw: string): Option<Fields> {
    var parts := Split(raw, '|');
    if |parts| != 5 && |parts| != 7 then None
    else
      var campaign := Trim(parts[1], IsTextSpace);
      var baseline := Lower(Trim(parts[2], IsTextSpace));
      var patchHash := Lower(Trim(parts[3], IsTextSpace));
      var url := Trim(parts[4], IsTextSpace);
      if !IsUuid(campaign) || !IsGitSha(baseline) || !IsPatchHash(patchHash) || !IsUrl(url) then None
      else if |parts| == 5 then Some(Fields(PrintUuid(ReadUuid(campaign)), baseline, patchHash, url, None))
      else
        var payment := ParsePaymentRef(parts[5], parts[6]);
        if payment.None? then None else Some(Fields(PrintUuid(ReadUuid(campaign)), baseline, patchHash, url, payment))
  }

  // ---------------------------------------------------------------------------
  // Encoding

  function PaymentParts(payment: Option<Payment>): seq<string> {
    if payment.None? then [] else [Decimal(payment.value.block), Decimal(payment.value.tx)]
  }

  function Wire(f: Fields): string {
    Join(["v2", f.campaign, f.baseline, f.patchHash, f.url] + PaymentParts(f.payment), '|')
  }

  /** Encode a commitment. `uuid` reads a UUID in any spelling the UUID library accepts. */
  function Encode(campaign: string, baseline: string, patchHash: string, url: string, block: Option<int>, tx: Option<int>,
                  uuid: string -> Option<Uuid>): Result<string, Error>
  {
    if uuid(campaign).None? then Err(NotAUuid)
    else
      var f := Fields(PrintUuid(uuid(campaign).value), Lower(baseline), Lower(patchHash), Trim(url, IsTextSpace), None);
      if '|' in f.campaign || '|' in f.baseline || '|' in f.patchHash || '|' in f.url then Err(ContainsBar)
      else if !IsUrl(f.url) then Err(NotAUrl)
      else if block.None? != tx.None? then Err(PaymentIncomplete)
      else if block.Some? && (block.value < 1 || tx.value < 0) then Err(PaymentOutOfRange)
      else
        var raw := Wire(if block.Some? then f.(payment := Some(Payment(block.value, tx.value))) else f);
        if Bytes(raw) > MAX_PLAINTEXT_BYTES then Err(TooLong)
        else if Parse(raw).None? then Err(NotParseable)
        else Ok(raw)
  }

  // ---------------------------------------------------------------------------
  // Parsing what was encoded

  lemma DigitsAreNoBars(s: string)
    requires AllDigits(s)
    ensures '|' !in s
    ensures s != [] ==> Trim(s, IsTextSpace) == s
  {
    if s != [] {
      assert IsDigit(s[0]) && IsDigit(s[|s| - 1]);
      TrimIdle(s, IsTextSpace);
    }
  }

  /** The parts of the wire string, read as they are. */
  ghost function Fits(f: Fields): bool {
    && IsUuid(f.campaign)
    && IsGitSha(Lower(Trim(f.baseline, IsTextSpace)))
    && IsPatchHash(Lower(Trim(f.patchHash, IsTextSpace)))
    && IsUrl(f.url) && Trim(f.url, IsTextSpace) == f.url
    && (f.payment.Some? ==> 1 <= f.payment.value.block <= MAX_PAYMENT_REF && f.payment.value.tx <= MAX_PAYMENT_REF)
  }

  ghost predicate Barless(f: Fields) {
    '|' !in f.campaign && '|' !in f.baseline && '|' !in f.patchHash && '|' !in f.url
  }

  ghost function Read(f: Fields): Fields {
    Fields(Lower(f.campaign), Lower(Trim(f.baseline, IsTextSpace)), Lower(Trim(f.patchHash, IsTextSpace)), f.url, f.payment)
  }

  lemma WireSplits(f: Fields)
    requires Barless(f)
    ensures Split(Wire(f), '|') == ["v2", f.campaign, f.baseline, f.patchHash, f.url] + PaymentParts(f.payment)
  {
    var parts := ["v2", f.campaign, f.baseline, f.patchHash, f.url] + PaymentParts(f.payment);
    if f.payment.Some? {
      DigitsAreNoBars(Decimal(f.payment.value.block));
      DigitsAreNoBars(Decimal(f.payment.value.tx));
    }
    assert forall i :: 0 <= i < |parts| ==> '|' !in parts[i];
    SplitJoin(parts, '|');
  }

  lemma PaymentRoundTrip(p: Payment)
    ensures ParsePaymentRef(Decimal(p.block), Decimal(p.tx)) ==
            if 1 <= p.block <= MAX_PAYMENT_REF && p.tx <= MAX_PAYMENT_REF then Some(p) else None
  {
    hide Decimal, DecimalValue, Trim;
    DigitsAreNoBars(Decimal(p.block));
    DigitsAreNoBars(Decimal(p.tx));
    DecimalRoundTrip(p.block);
    DecimalRoundTrip(p.tx);
  }

  lemma UuidTrims(s: string)
    requires IsUuid(s)
    ensures Trim(s, IsTextSpace) == s
  {
    assert IsHex(LowerChar(s[0])) && IsHex(LowerChar(s[35]));
    TrimIdle(s, IsTextSpace);
  }

  /** The wire string of bar-free parts parses exactly when the parts are well formed, and then to
      those parts. */
  lemma WireParses(f: Fields)
    requires Barless(f) && IsUuid(f.campaign) && IsUrl(f.url) && Trim(f.url, IsTextSpace) == f.url
    ensures Parse(Wire(f)) == if Fits(f) then Some(Read(f)) else None
  {
    hide Trim, Split, Wire, IsUuid, IsGitSha, IsPatchHash, IsUrl, Lower, ParsePaymentRef;
    WireSplits(f);
    UuidTrims(f.campaign);
    ReadUuidPrints(f.campaign);
    if f.payment.Some? {
      PaymentRoundTrip(f.payment.value);
    }
  }

  /** What the parser is to give back for an encoded commitment. */
  ghost function Meant(u: Uuid, baseline: string, patchHash: string, url: string, payment: Option<Payment>): Fields {
    Fields(PrintUuid(u), Trim(Lower(baseline), IsTextSpace), Trim(Lower(patchHash), IsTextSpace), Trim(url, IsTextSpace), payment)
  }

  lemma LowerTwice(s: string)
    ensures Lower(Lower(s)) == Lower(s)
  {
  }

  lemma PrintedLower(u: Uuid)
    ensures IsUuid(PrintUuid(u)) && Lower(PrintUuid(u)) == PrintUuid(u) && '|' !in PrintUuid(u)
  {
  }

  lemma LowerTrim(s: string)
    ensures Lower(Trim(Lower(s), IsTextSpace)) == Trim(Lower(s), IsTextSpace)
  {
    hide Trim;
    var l := Lower(s);
    var p, q := TrimParts(l, IsTextSpace);
    var core := Trim(l, IsTextSpace);
    forall i | 0 <= i < |core| ensures LowerChar(core[i]) == core[i] {
      assert core[i] == l[|p| + i] == LowerChar(s[|p| + i]);
    }
  }

  ghost function PaymentOf(block: Option<int>, tx: Option<int>): Option<Payment>
    requires block.Some? && tx.Some? ==> block.value >= 0 && tx.value >= 0
  {
    if block.Some? && tx.Some? then Some(Payment(block.value, tx.value)) else None
  }

  /** The inputs the encoder accepts, spelled out. */
  ghost predicate Encodable(campaign: string, baseline: string, patchHash: string, url: string,
                            block: Option<int>, tx: Option<int>, uuid: string -> Option<Uuid>) {
    && uuid(campaign).Some?
    && IsGitSha(Trim(Lower(baseline), IsTextSpace)) && IsPatchHash(Trim(Lower(patchHash), IsTextSpace))
    && IsUrl(Trim(url, IsTextSpace)) && '|' !in Trim(url, IsTextSpace)
    && (block.None? <==> tx.None?)
    && (block.Some? ==> 1 <= block.value <= MAX_PAYMENT_REF && 0 <= tx.value <= MAX_PAYMENT_REF)
    && Bytes(Wire(Fields(PrintUuid(uuid(campaign).value), Lower(baseline), Lower(patchHash), Trim(url, IsTextSpace),
                         PaymentOf(block, tx)))) <= MAX_PLAINTEXT_BYTES
  }

  lemma SpacesAreNoBars(s: string)
    requires '|' !in Trim(s, IsTextSpace)
    ensures '|' !in s
  {
    hide Trim;
    var p, q := TrimParts(s, IsTextSpace);
    assert !IsTextSpace('|');
  }

  lemma HashesAreNoBars(s: string)
    ensures IsGitSha(s) || IsPatchHash(s) ==> '|' !in s
  {
  }

  lemma TrimTwice(s: string, space: char -> bool)
    ensures Trim(Trim(s, space), space) == Trim(s, space)
  {
    hide Trim;
    TrimIdle(Trim(s, space), space);
  }

  /** The encoder accepts exactly the encodable inputs; what it returns fits the chain's limit and
      parses to the normalised fields. */
  lemma RoundTrip(campaign: string, baseline: string, patchHash: string, url: string,
                  block: Option<int>, tx: Option<int>, uuid: string -> Option<Uuid>)
    ensures var encoded := Encode(campaign, baseline, patchHash, url, block, tx, uuid);
            && (encoded.Ok? <==> Encodable(campaign, baseline, patchHash, url, block, tx, uuid))
            && (encoded.Ok? ==>
                  && Bytes(encoded.value) <= MAX_PLAINTEXT_BYTES
                  && Parse(encoded.value)
                     == Some(Meant(uuid(campaign).value, baseline, patchHash, url, PaymentOf(block, tx))))
  {
    hide Trim, Parse, Wire, Bytes, IsUuid, IsGitSha, IsPatchHash, IsUrl, Lower, PrintUuid;
    if uuid(campaign).Some? {
      var u := uuid(campaign).value;
      var f := Fields(PrintUuid(u), Lower(baseline), Lower(patchHash), Trim(url, IsTextSpace), None);
      PrintedLower(u);
      LowerTrim(baseline);
      LowerTrim(patchHash);
      TrimTwice(url, IsTextSpace);
      EncodableBarless(baseline);
      EncodableBarless(patchHash);
      if Barless(f) && IsUrl(f.url) && (block.None? <==> tx.None?) && (block.Some? ==> block.value >= 1 && tx.value >= 0) {
        WireParses(f.(payment := PaymentOf(block, tx)));
      }
    }
  }

  lemma EncodableBarless(s: string)
    ensures var core := Trim(Lower(s), IsTextSpace);
            IsGitSha(core) || IsPatchHash(core) ==> '|' !in Lower(s)
  {
    hide Trim, Lower, IsGitSha, IsPatchHash;
    var core := Trim(Lower(s), IsTextSpace);
    HashesAreNoBars(core);
    if '|' !in core {
      SpacesAreNoBars(Lower(s));
    }
  }

  /** The wire string is told apart from the older JSON form by its beginning. */
  lemma WireIsV2(f: Fields)
    ensures "v2|" <= Wire(f)
  {
  }

  // ---------------------------------------------------------------------------
  // Encoding what was parsed

  lemma {:induction false} BytesAppend(a: string, b: string)
    ensures Bytes(a + b) == Bytes(a) + Bytes(b)
  {
    if b == [] {
      assert a + b == a;
    } else {
      BytesAppend(a, b[..|b| - 1]);
      assert (a + b)[..|a + b| - 1] == a + b[..|b| - 1];
    }
  }

  lemma {:induction false} BytesAtLeast(s: string)
    ensures Bytes(s) >= |s|
  {
    if s != [] {
      BytesAtLeast(s[..|s| - 1]);
    }
  }

  lemma {:induction false} BytesOfDigits(s: string)
    requires AllDigits(s)
    ensures Bytes(s) == |s|
  {
    if s != [] {
      BytesOfDigits(s[..|s| - 1]);
    }
  }

  lemma {:induction false} BytesOfLower(s: string)
    ensures Bytes(Lower(s)) == Bytes(s)
  {
    if s != [] {
      BytesOfLower(s[..|s| - 1]);
      assert Lower(s)[..|s| - 1] == Lower(s[..|s| - 1]);
    }
  }

  lemma BytesOfTrim(s: string)
    ensures Bytes(Trim(s, IsTextSpace)) <= Bytes(s)
  {
    hide Trim, Bytes;
    var p, q := TrimParts(s, IsTextSpace);
    var core := Trim(s, IsTextSpace);
    BytesAppend(p + core, q);
    BytesAppend(p, core);
  }

  /** Joining shorter parts gives a shorter text. */
  lemma {:induction false} BytesOfJoin(parts: seq<string>, longer: seq<string>)
    requires |parts| == |longer| > 0 && forall i :: 0 <= i < |parts| ==> Bytes(parts[i]) <= Bytes(longer[i])
    ensures Bytes(Join(parts, '|')) <= Bytes(Join(longer, '|'))
  {
    hide Bytes;
    if |parts| > 1 {
      var a, b := Join(parts[1..], '|'), Join(longer[1..], '|');
      BytesOfJoin(parts[1..], longer[1..]);
      BytesAppend(parts[0] + ['|'], a);
      BytesAppend(parts[0], ['|']);
      BytesAppend(longer[0] + ['|'], b);
      BytesAppend(longer[0], ['|']);
    }
  }

  lemma BytesOfNumber(s: string)
    requires var t := Trim(s, IsTextSpace); t != [] && AllDigits(t)
    ensures Bytes(Decimal(DecimalValue(Trim(s, IsTextSpace)))) <= Bytes(s)
  {
    hide Trim, Bytes, Decimal, DecimalValue;
    var t := Trim(s, IsTextSpace);
    DecimalShortest(t);
    BytesOfDigits(Decimal(DecimalValue(t)));
    BytesOfDigits(t);
    BytesOfTrim(s);
  }

  lemma VersionFirst(raw: string)
    requires "v2|" <= raw
    ensures Split(raw, '|')[0] == "v2"
  {
    assert raw == "v2" + ['|'] + raw[3..];
    SplitFirst("v2", '|', raw[3..]);
  }

  ghost predicate Normalised(f: Fields) {
    && IsUuid(f.campaign) && Lower(f.campaign) == f.campaign
    && IsGitSha(f.baseline) && Lower(f.baseline) == f.baseline
    && IsPatchHash(f.patchHash) && Lower(f.patchHash) == f.patchHash
    && IsUrl(f.url) && Trim(f.url, IsTextSpace) == f.url && '|' !in f.url
    && (f.payment.Some? ==> 1 <= f.payment.value.block <= MAX_PAYMENT_REF && f.payment.value.tx <= MAX_PAYMENT_REF)
  }

  /** Parsed fields are normalised, and take no more bytes on the wire than they were parsed from. */
  lemma ParsedIsNormalised(raw: string)
    requires "v2|" <= raw && Parse(raw).Some?
    ensures Normalised(Parse(raw).value) && Bytes(Wire(Parse(raw).value)) <= Bytes(raw)
  {
    hide Trim, Split, Bytes, IsUuid, IsGitSha, IsPatchHash, IsUrl, Lower, PrintUuid, Decimal, DecimalValue, Join;
    var parts, f := Split(raw, '|'), Parse(raw).value;
    var wire := ["v2", f.campaign, f.baseline, f.patchHash, f.url] + PaymentParts(f.payment);
    VersionFirst(raw);
    var campaign := Trim(parts[1], IsTextSpace);
    ReadUuidPrints(campaign);
    PrintedLower(ReadUuid(campaign));
    BytesOfTrim(parts[1]);
    BytesOfLower(campaign);
    ParsedText(parts[2]);
    ParsedText(parts[3]);
    BytesOfTrim(parts[4]);
    TrimTwice(parts[4], IsTextSpace);
    SplitFree(raw, '|');
    TrimKeepsBarless(parts[4]);
    if |parts| == 7 {
      BytesOfNumber(parts[5]);
      BytesOfNumber(parts[6]);
    }
    assert |wire| == |parts|;
    forall i | 0 <= i < |wire| ensures Bytes(wire[i]) <= Bytes(parts[i]) {
    }
    BytesOfJoin(wire, parts);
    JoinSplit(raw, '|');
  }

  lemma ParsedText(s: string)
    ensures var t := Lower(Trim(s, IsTextSpace)); Bytes(t) <= Bytes(s) && Lower(t) == t
  {
    hide Trim, Bytes, Lower;
    BytesOfTrim(s);
    BytesOfLower(Trim(s, IsTextSpace));
    LowerTwice(Trim(s, IsTextSpace));
  }

  lemma TrimKeepsBarless(s: string)
    requires '|' !in s
    ensures '|' !in Trim(s, IsTextSpace)
  {
  }

  lemma HashTrims(s: string)
    requires IsGitSha(s) || IsPatchHash(s)
    ensures Trim(s, IsTextSpace) == s
  {
    if IsPatchHash(s) {
      assert s[0] == s[..7][0];
      assert IsHex(s[70]);
    } else {
      assert IsHex(s[0]) && IsHex(s[39]);
    }
    TrimIdle(s, IsTextSpace);
  }

  /** What the parser accepts within the chain's limit can be encoded again, and the new wire string
      says the same. */
  lemma ParsedEncodes(raw: string, uuid: string -> Option<Uuid>)
    requires "v2|" <= raw && Bytes(raw) <= MAX_PLAINTEXT_BYTES && Parse(raw).Some?
    requires uuid(Parse(raw).value.campaign) == Some(ReadUuidOf(Parse(raw).value.campaign))
    ensures var f := Parse(raw).value;
            var block := if f.payment.Some? then Some(f.payment.value.block as int) else None;
            var tx := if f.payment.Some? then Some(f.payment.value.tx as int) else None;
            var encoded := Encode(f.campaign, f.baseline, f.patchHash, f.url, block, tx, uuid);
            encoded.Ok? && Parse(encoded.value) == Some(f)
  {
    hide Trim, Parse, Wire, Bytes, IsUuid, IsGitSha, IsPatchHash, IsUrl, Lower, PrintUuid, Encode;
    ParsedIsNormalised(raw);
    var f := Parse(raw).value;
    var block := if f.payment.Some? then Some(f.payment.value.block as int) else None;
    var tx := if f.payment.Some? then Some(f.payment.value.tx as int) else None;
    ReadUuidPrints(f.campaign);
    HashTrims(f.baseline);
    HashTrims(f.patchHash);
    RoundTrip(f.campaign, f.baseline, f.patchHash, f.url, block, tx, uuid);
    assert f == Fields(f.campaign, f.baseline, f.patchHash, f.url, f.payment);
  }

  ghost function ReadUuidOf(s: string): Uuid {
    if IsUuid(s) then ReadUuid(s) else seq(32, _ => 0)
  }
}
