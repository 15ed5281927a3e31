/** The chunk lists that are hashed and signed, and the decimal text inside them. */
module Messages {
  import opened Words
  import opened Wrappers

  /** The body of a cosigning request. */
  datatype SignRequest = SignRequest(
    id: string,
    size: u64,
    fee: u128,
    currency: string,
    block: u128,
    validator: string,
    signature: string)

  const BUNDLR_AS_BUFFER := "Bundlr"
  const VALIDATOR_AS_BUFFER := "Validator"
  const ONE_AS_BUFFER := "1"

  // ----- decimal text

  datatype ParseError = Empty | InvalidDigit | Overflow

  predicate IsDigit(c: char) { '0' <= c <= '9' }

  predicate AllDigits(s: string) { forall c | c in s :: IsDigit(c) }

  function DigitChar(d: nat): (c: char)
    requires d < 10
    ensures IsDigit(c) && DigitValue(c) == d
  {
    (d + '0' as nat) as char
  }

  function DigitValue(c: char): (d: nat)
    requires IsDigit(c)
    ensures d < 10
  {
    c as nat - '0' as nat
  }

  /** `to_string` of an unsigned integer. */
  function Decimal(n: nat): string {
    if n < 10 then [DigitChar(n)] else Decimal(n / 10) + [DigitChar(n % 10)]
  }

  function DigitsValue(s: string): nat
    requires AllDigits(s)
  {
    if s == "" then 0 else 10 * DigitsValue(s[..|s| - 1]) + DigitValue(s[|s| - 1])
  }

  /** Rust's `str::parse` into an unsigned integer below `bound`: one leading plus sign
      and leading zeros are accepted. */
  function Parse(s: string, bound: nat): Result<nat, ParseError> {
    var digits := if s != "" && s[0] == '+' then s[1..] else s;
    if s == "" then Err(Empty)
    else if digits == "" || !AllDigits(digits) then Err(InvalidDigit)
    else if DigitsValue(digits) >= bound then Err(Overflow)
    else Ok(DigitsValue(digits))
  }

  /** The spelling that printing produces. */
  predicate Canonical(s: string) {
    s != "" && AllDigits(s) && (s[0] != '0' || s == "0")
  }

  lemma {:induction false} DecimalDigits(n: nat)
    ensures Canonical(Decimal(n)) && DigitsValue(Decimal(n)) == n
    ensures n > 0 ==> Decimal(n)[0] != '0'
  {
    if n >= 10 {
      DecimalDigits(n / 10);
      assert Decimal(n)[..|Decimal(n)| - 1] == Decimal(n / 10);
    }
  }

  /** Parsing inverts printing for every number the target type holds. */
  lemma ParseDecimal(n: nat, bound: nat)
    requires n < bound
    ensures Parse(Decimal(n), bound) == Ok(n)
  {
    DecimalDigits(n);
    assert IsDigit(Decimal(n)[0]);
  }

  lemma {:induction false} DigitsPrintBack(s: string)
    requires Canonical(s)
    ensures Decimal(DigitsValue(s)) == s
    ensures s != "0" ==> DigitsValue(s) > 0
  {
    var front, last := s[..|s| - 1], s[|s| - 1];
    if front == "" {
      assert s == [last] && DigitsValue(front) == 0;
      assert DigitChar(DigitValue(last)) == last;
    } else {
      assert front[0] == s[0] && front != "0";
      DigitsPrintBack(front);
      DecimalSnoc(DigitsValue(front), DigitValue(last));
      assert DigitChar(DigitValue(last)) == last;
      assert s == front + [last];
    }
  }

  lemma DecimalSnoc(n: nat, d: nat)
    requires n > 0 && d < 10
    ensures Decimal(10 * n + d) == Decimal(n) + [DigitChar(d)]
  {
    assert (10 * n + d) / 10 == n && (10 * n + d) % 10 == d;
  }

  function Zeros(k: nat): string { seq(k, _ => '0') }

  lemma {:induction false} ZerosAddNothing(k: nat, t: string)
    requires AllDigits(t)
    ensures AllDigits(Zeros(k) + t) && DigitsValue(Zeros(k) + t) == DigitsValue(t)
    decreases k + |t|
  {
    if t != "" {
      assert (Zeros(k) + t)[..k + |t| - 1] == Zeros(k) + t[..|t| - 1];
      ZerosAddNothing(k, t[..|t| - 1]);
    } else if k > 0 {
      assert (Zeros(k) + t)[..k - 1] == Zeros(k - 1) + t;
      ZerosAddNothing(k - 1, t);
    }
  }

  lemma DropZero(t: string)
    requires t != "" && AllDigits(t) && !Canonical(t)
    ensures t[1..] != "" && AllDigits(t[1..])
    ensures t == Zeros(1) + t[1..] && DigitsValue(t) == DigitsValue(t[1..])
  {
    assert t == Zeros(1) + t[1..];
    ZerosAddNothing(1, t[1..]);
  }

  lemma {:induction false} LeadingZeros(t: string) returns (k: nat)
    requires t != "" && AllDigits(t)
    ensures t == Zeros(k) + Decimal(DigitsValue(t))
  {
    if Canonical(t) {
      k := 0;
      DigitsPrintBack(t);
      assert Zeros(0) + t == t;
    } else {
      DropZero(t);
      k := LeadingZeros(t[1..]);
      assert Zeros(1) + Zeros(k) == Zeros(k + 1);
      k := k + 1;
    }
  }

  /** Spellings of a number: its printed form, after any zeros and at most one plus sign. */
  predicate SpeltWith(s: string, n: nat, k: nat) {
    s == Zeros(k) + Decimal(n) || s == "+" + (Zeros(k) + Decimal(n))
  }

  ghost predicate Spells(s: string, n: nat) {
    exists k :: SpeltWith(s, n, k)
  }

  lemma SpellingIsParsed(s: string, n: nat, k: nat, bound: nat)
    requires SpeltWith(s, n, k)
    ensures Parse(s, bound) == if n < bound then Ok(n) else Err(Overflow)
  {
    var t := Zeros(k) + Decimal(n);
    DecimalDigits(n);
    ZerosAddNothing(k, Decimal(n));
    assert IsDigit(t[0]);
    assert ("+" + t)[1..] == t;
  }

  lemma ParsedIsSpelling(s: string, bound: nat) returns (n: nat)
    requires Parse(s, bound).Ok? || Parse(s, bound) == Err(Overflow)
    ensures Spells(s, n) && Parse(s, bound) == if n < bound then Ok(n) else Err(Overflow)
  {
    var digits := if s[0] == '+' then s[1..] else s;
    n := DigitsValue(digits);
    var k := LeadingZeros(digits);
    assert s[0] == '+' ==> s == "+" + digits;
    assert SpeltWith(s, n, k);
  }

  /** What parsing accepts, and why it refuses the rest: the empty text, spellings of numbers that
      are too large, and anything that spells no number. */
  lemma ParseIff(s: string, bound: nat)
    ensures forall n: nat :: Parse(s, bound) == Ok(n) <==> n < bound && Spells(s, n)
    ensures Parse(s, bound) == Err(Overflow) <==> exists n: nat :: bound <= n && Spells(s, n)
    ensures Parse(s, bound) == Err(Empty) <==> s == ""
  {
    forall n: nat, k: nat | SpeltWith(s, n, k) ensures Parse(s, bound) == if n < bound then Ok(n) else Err(Overflow) {
      SpellingIsParsed(s, n, k, bound);
    }
    if Parse(s, bound).Ok? || Parse(s, bound) == Err(Overflow) {
      var n := ParsedIsSpelling(s, bound);
    }
  }

  /** Printing inverts parsing exactly on the canonical spellings: a number written with a
      plus sign or with leading zeros is signed under its canonical spelling instead. */
  lemma DecimalParse(s: string, bound: nat)
    requires Parse(s, bound).Ok?
    ensures Decimal(Parse(s, bound).value) == s <==> Canonical(s)
  {
    if Canonical(s) {
      assert IsDigit(s[0]);
      DigitsPrintBack(s);
    } else {
      DecimalDigits(Parse(s, bound).value);
    }
  }

  lemma DecimalInjective(m: nat, n: nat)
    requires Decimal(m) == Decimal(n)
    ensures m == n
  {
    DecimalDigits(m);
    DecimalDigits(n);
  }

  // ----- the three message shapes

  /** The chunks `verify` rebuilds and checks the bundler's signature against. */
  function VerifyChunks(req: SignRequest): seq<string> {
    [BUNDLR_AS_BUFFER, ONE_AS_BUFFER, req.id, Decimal(req.size), Decimal(req.fee),
     req.currency, Decimal(req.block), req.validator]
  }

  /** The chunks the validator signs. */
  function SignChunks(req: SignRequest, bundlerAddress: string): seq<string> {
    [VALIDATOR_AS_BUFFER, ONE_AS_BUFFER, req.id, Decimal(req.size), Decimal(req.fee),
     req.currency, Decimal(req.block), req.validator, bundlerAddress]
  }

  /** The chunks of a transaction receipt. */
  function ReceiptChunks(txId: string, block: u128): seq<string> {
    [BUNDLR_AS_BUFFER, ONE_AS_BUFFER, txId, Decimal(block)]
  }

  /** Every field that a promise is about; the bundler's signature is not part of it. */
  predicate SamePromise(a: SignRequest, b: SignRequest) {
    a.(signature := "") == b.(signature := "")
  }

  /** Each list determines every field it was built from, and no list of one shape is a list
      of another: a signature over one is never a signature over a different promise. */
  lemma ChunksDetermineFields(a: SignRequest, b: SignRequest, p: string, q: string, id: string, block: u128)
    ensures VerifyChunks(a) == VerifyChunks(b) <==> SamePromise(a, b)
    ensures SignChunks(a, p) == SignChunks(b, q) <==> SamePromise(a, b) && p == q
    ensures VerifyChunks(a) != SignChunks(b, p)
    ensures VerifyChunks(a) != ReceiptChunks(id, block)
    ensures SignChunks(a, p) != ReceiptChunks(id, block)
  {
    var va, vb, sa, sb := VerifyChunks(a), VerifyChunks(b), SignChunks(a, p), SignChunks(b, q);
    if va == vb || sa == sb {
      assert va[2] == vb[2] && va[3] == vb[3] && va[4] == vb[4] && va[5] == vb[5] && va[6] == vb[6] && va[7] == vb[7]
        by {
        if sa == sb {
          assert sa[2] == sb[2] && sa[3] == sb[3] && sa[4] == sb[4];
          assert sa[5] == sb[5] && sa[6] == sb[6] && sa[7] == sb[7];
        }
      }
      DecimalInjective(a.size, b.size);
      DecimalInjective(a.fee, b.fee);
      DecimalInjective(a.block, b.block);
    }
    if sa == sb {
      assert sa[8] == sb[8];
    }
    assert |VerifyChunks(a)| == 8 && |SignChunks(b, p)| == 9 && |ReceiptChunks(id, block)| == 4;
  }

  /** How the three lists are laid out: the eight chunks of the bundler, which begin with its tag
      and the version, hold the promise field by field; the validator signs them under its own
      tag and over the bundler's address; a receipt has only id and block of them. */
  lemma ChunkLayout(req: SignRequest, bundlerAddress: string)
    ensures var v := VerifyChunks(req);
            && |v| == 8 && v[0] == "Bundlr" && v[1] == "1" && v[2] == req.id
            && Parse(v[3], TWO_TO_THE_64) == Ok(req.size) && Parse(v[4], TWO_TO_THE_128) == Ok(req.fee)
            && v[5] == req.currency && Parse(v[6], TWO_TO_THE_128) == Ok(req.block) && v[7] == req.validator
            && SignChunks(req, bundlerAddress) == ["Validator"] + v[1..] + [bundlerAddress]
            && ReceiptChunks(req.id, req.block) == v[..3] + [v[6]]
  {
    ParseDecimal(req.size, TWO_TO_THE_64);
    ParseDecimal(req.fee, TWO_TO_THE_128);
    ParseDecimal(req.block, TWO_TO_THE_128);
  }

  lemma ReceiptDeterminesFields(id: string, block: u128, id': string, block': u128)
    requires ReceiptChunks(id, block) == ReceiptChunks(id', block')
    ensures id == id' && block == block'
  {
    assert ReceiptChunks(id, block)[2] == ReceiptChunks(id', block')[2];
    assert ReceiptChunks(id, block)[3] == ReceiptChunks(id', block')[3];
    DecimalInjective(block, block');
  }

  // ----- the request as the message builder prints it

  /** The fields of the printed JSON object; the two u128 fields are strings there. */
  datatype PrintedRequest = PrintedRequest(
    id: string,
    size: u64,
    fee: string,
    currency: string,
    block: string,
    validator: string,
    signature: string)

  /** The message builder: sign the eight chunks of the arguments, print the object. */
  function BuilderChunks(
      tx: string, size: u64, fee: u128, currency: string, block: u128, validator: string): seq<string>
  {
    [BUNDLR_AS_BUFFER, ONE_AS_BUFFER, tx, Decimal(size), Decimal(fee), currency, Decimal(block), validator]
  }

  function BuilderPrint(tx: string, size: u64, fee: u128, currency: string, block: u128, validator: string, sig: string)
    : PrintedRequest
  {
    PrintedRequest(tx, size, Decimal(fee), currency, Decimal(block), validator, sig)
  }

  /** Deserialization of a request body: `de_u128` parses the two string fields. */
  function Deserialize(p: PrintedRequest): Result<SignRequest, ParseError> {
    match Parse(p.fee, TWO_TO_THE_128)
    case Err(e) => Err(e)
    case Ok(fee) =>
      match Parse(p.block, TWO_TO_THE_128)
      case Err(e) => Err(e)
      case Ok(block) => Ok(SignRequest(p.id, p.size, fee, p.currency, block, p.validator, p.signature))
  }

  /** Serialization of a request: `ser_as_string` prints the two u128 fields. */
  function Serialize(r: SignRequest): PrintedRequest {
    PrintedRequest(r.id, r.size, Decimal(r.fee), r.currency, Decimal(r.block), r.validator, r.signature)
  }

  lemma SerializeRoundTrip(r: SignRequest)
    ensures Deserialize(Serialize(r)) == Ok(r)
  {
    ParseDecimal(r.fee, TWO_TO_THE_128);
    ParseDecimal(r.block, TWO_TO_THE_128);
  }

  /** What the builder signed is what `verify` rebuilds from what the builder printed. */
  lemma BuilderAgreesWithVerify(
      tx: string, size: u64, fee: u128, currency: string, block: u128, validator: string, sig: string)
    ensures var r := Deserialize(BuilderPrint(tx, size, fee, currency, block, validator, sig));
            r.Ok? && r.value.signature == sig
            && VerifyChunks(r.value) == BuilderChunks(tx, size, fee, currency, block, validator)
  {
    ParseDecimal(fee, TWO_TO_THE_128);
    ParseDecimal(block, TWO_TO_THE_128);
  }

  /** Whatever spelling a body used for its numbers, the printed form of the deserialized
      request is the body itself exactly when the spelling was canonical. */
  lemma DeserializeRoundTrip(p: PrintedRequest)
    requires Deserialize(p).Ok?
    ensures Serialize(Deserialize(p).value) == p <==> Canonical(p.fee) && Canonical(p.block)
  {
    DecimalParse(p.fee, TWO_TO_THE_128);
    DecimalParse(p.block, TWO_TO_THE_128);
  }
}
