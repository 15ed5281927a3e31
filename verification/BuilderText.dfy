/** The request body as the message builder prints it, and as the server reads it back. */
module BuilderText {
  import opened Messages
  import opened Words
  import opened Wrappers

  // ----- string literals

  /** The value of a string literal, and the text after its closing quote. */
  datatype Literal = Literal(value: string, rest: string)

  /** Characters that stand for themselves in a literal. */
  predicate Plain(s: string) {
    forall c | c in s :: c != '\"' && c != '\\' && c >= ' '
  }

  function HexDigit(c: char): (d: Option<nat>)
    ensures d.Some? ==> d.value < 16 && c != '\"'
  {
    if '0' <= c <= '9' then Some(c as nat - '0' as nat)
    else if 'a' <= c <= 'f' then Some(c as nat - 'a' as nat + 10)
    else if 'A' <= c <= 'F' then Some(c as nat - 'A' as nat + 10)
    else None
  }

  /** The four hexadecimal digits after `\u`. */
  function Hex4(s: string): (v: Option<nat>)
    ensures v.Some? ==> v.value < 0x1_0000 && |s| >= 4 && forall i | 0 <= i < 4 :: s[i] != '\"'
  {
    if |s| < 4 then None
    else
      match (HexDigit(s[0]), HexDigit(s[1]), HexDigit(s[2]), HexDigit(s[3]))
      case (Some(a), Some(b), Some(c), Some(d)) => Some(0x1000 * a + 0x100 * b + 0x10 * c + d)
      case _ => None
  }

  /** A character given by code, in one part or as a surrogate pair; `s` starts at the `u`. */
  function ReadUnicode(s: string): (r: Option<(char, nat)>)
    ensures r.Some? ==> 1 < r.value.1 <= |s| && forall i | 1 <= i < r.value.1 :: s[i] != '\"'
  {
    if s == "" || Hex4(s[1..]).None? then None
    else
      var hi := Hex4(s[1..]).value;
      assert forall i | 1 <= i < 5 :: s[i] == s[1..][i - 1];
      if hi < 0xD800 || hi >= 0xE000 then Some((hi as char, 5))
      else if hi < 0xDC00 && |s| > 7 && s[5] == '\\' && s[6] == 'u' && Hex4(s[7..]).Some? then
        var lo := Hex4(s[7..]).value;
        assert forall i | 7 <= i < 11 :: s[i] == s[7..][i - 7];
        if 0xDC00 <= lo < 0xE000 then Some(((0x1_0000 + 0x400 * (hi - 0xD800) + (lo - 0xDC00)) as char, 11)) else None
      else None
  }

  /** The character an escape stands for, and how many characters after the backslash it takes. */
  function ReadEscape(s: string): (r: Option<(char, nat)>)
    ensures r.Some? ==> 0 < r.value.1 <= |s|
    ensures r.Some? ==> if s[0] == '\"' then r.value == ('\"', 1) else forall i | 0 <= i < r.value.1 :: s[i] != '\"'
  {
    if s == "" then None
    else if s[0] == '\"' || s[0] == '\\' || s[0] == '/' then Some((s[0], 1))
    else if s[0] == 'b' then Some((8 as char, 1))
    else if s[0] == 'f' then Some((12 as char, 1))
    else if s[0] == 'n' then Some(('\n', 1))
    else if s[0] == 'r' then Some(('\r', 1))
    else if s[0] == 't' then Some(('\t', 1))
    else if s[0] == 'u' then ReadUnicode(s)
    else None
  }

  /** Read a literal from behind its opening quote. */
  function ReadLiteral(s: string): Option<Literal>
    decreases |s|
  {
    if s == "" || s[0] < ' ' then None
    else if s[0] == '\"' then Some(Literal("", s[1..]))
    else if s[0] == '\\' then
      match ReadEscape(s[1..])
      case None => None
      case Some((c, n)) => Prepend(c, ReadLiteral(s[1 + n..]))
    else Prepend(s[0], ReadLiteral(s[1..]))
  }

  function Prepend(c: char, l: Option<Literal>): Option<Literal> {
    if l.None? then None else Some(Literal([c] + l.value.value, l.value.rest))
  }

  predicate NoQuote(s: string, n: nat) {
    n <= |s| && forall i | 0 <= i < n :: s[i] != '\"'
  }

  /** The value has a quote at `q`, and the text has none up to there: an escaped quote. */
  predicate QuoteEarly(s: string, value: string, q: nat) {
    q < |value| && value[q] == '\"' && NoQuote(s, q + 1)
  }

  /** The literal ends at the first quote of the text, and is that text if nothing was escaped. */
  predicate EndsAtQuote(s: string, l: Literal, q: nat) {
    && q < |s| && s[q] == '\"' && NoQuote(s, q) && l.rest == s[q + 1..]
    && |l.value| <= q && (|l.value| == q ==> l.value == s[..q] && Plain(l.value))
  }

  lemma PrependAt(s: string, n: nat, c: char, l: Literal)
    requires 0 < n <= |s| && NoQuote(s, n) && (n == 1 ==> c == s[0] && c != '\\' && c >= ' ')
    ensures forall q: nat | QuoteEarly(s[n..], l.value, q) :: QuoteEarly(s, [c] + l.value, q + 1)
    ensures forall q: nat | EndsAtQuote(s[n..], l, q) :: EndsAtQuote(s, Literal([c] + l.value, l.rest), n + q)
  {
    var t := s[n..];
    forall q: nat | QuoteEarly(t, l.value, q) ensures QuoteEarly(s, [c] + l.value, q + 1) {
      forall i | 0 <= i < q + 2 ensures i < |s| && s[i] != '\"' {
        assert i >= n ==> s[i] == t[i - n];
      }
    }
    forall q: nat | EndsAtQuote(t, l, q) ensures EndsAtQuote(s, Literal([c] + l.value, l.rest), n + q) {
      forall i | 0 <= i < n + q ensures s[i] != '\"' {
        assert i >= n ==> s[i] == t[i - n];
      }
      assert s[n + q + 1..] == t[q + 1..];
      if |l.value| + 1 == n + q {
        assert s[..n + q] == [c] + t[..q];
      }
    }
  }

  ghost predicate HasShape(s: string, l: Literal) {
    exists q: nat :: QuoteEarly(s, l.value, q) || EndsAtQuote(s, l, q)
  }

  lemma ShapeOfPrepended(s: string, n: nat, c: char, l: Literal)
    requires 0 < n <= |s| && NoQuote(s, n) && (n == 1 ==> c == s[0] && c != '\\' && c >= ' ')
    requires HasShape(s[n..], l)
    ensures HasShape(s, Literal([c] + l.value, l.rest))
  {
    var k: nat :| QuoteEarly(s[n..], l.value, k) || EndsAtQuote(s[n..], l, k);
    PrependAt(s, n, c, l);
    if QuoteEarly(s[n..], l.value, k) {
      assert QuoteEarly(s, [c] + l.value, k + 1);
    } else {
      assert EndsAtQuote(s, Literal([c] + l.value, l.rest), n + k);
    }
  }

  /** What an escape at the start leads to. */
  lemma EscapeIsRead(s: string) returns (c: char, n: nat)
    requires s != "" && s[0] == '\\' && ReadLiteral(s).Some?
    ensures 0 < n < |s| && ReadLiteral(s[1 + n..]).Some?
    ensures ReadLiteral(s) == Prepend(c, ReadLiteral(s[1 + n..]))
    ensures if s[1] == '\"' then c == '\"' else NoQuote(s, 1 + n)
  {
    var e := ReadEscape(s[1..]).value;
    c, n := e.0, e.1;
    assert forall i | 1 <= i < |s| :: s[i] == s[1..][i - 1];
  }

  /** How a literal can end. */
  lemma {:induction false} LiteralShape(s: string)
    requires ReadLiteral(s).Some?
    ensures HasShape(s, ReadLiteral(s).value)
    decreases |s|
  {
    var l := ReadLiteral(s).value;
    if s[0] == '\"' {
      assert EndsAtQuote(s, l, 0);
    } else if s[0] == '\\' {
      var c, n := EscapeIsRead(s);
      if s[1] == '\"' {
        assert QuoteEarly(s, l.value, 0);
      } else {
        LiteralShape(s[1 + n..]);
        ShapeOfPrepended(s, 1 + n, c, ReadLiteral(s[1 + n..]).value);
      }
    } else {
      LiteralShape(s[1..]);
      ShapeOfPrepended(s, 1, s[0], ReadLiteral(s[1..]).value);
    }
  }

  lemma PlainCharIsRead(c: char, s: string)
    requires Plain([c])
    ensures ReadLiteral([c] + s) == Prepend(c, ReadLiteral(s))
  {
    assert c in [c];
    assert ([c] + s)[1..] == s;
  }

  lemma {:induction false} PlainIsRead(f: string, rest: string)
    requires Plain(f)
    ensures ReadLiteral(f + "\"" + rest) == Some(Literal(f, rest))
  {
    if f == "" {
      assert (f + "\"" + rest)[1..] == rest;
    } else {
      PlainParts(f);
      PlainIsRead(f[1..], rest);
      PlainCharIsRead(f[0], f[1..] + "\"" + rest);
      TakeFirst(f, "\"", rest);
    }
  }

  lemma PlainParts(f: string)
    requires Plain(f) && f != ""
    ensures Plain([f[0]]) && Plain(f[1..]) && f == [f[0]] + f[1..]
  {
    assert f[0] in f && forall c | c in f[1..] :: c in f;
  }

  lemma TakeFirst(f: string, quote: string, rest: string)
    requires f != ""
    ensures f + quote + rest == [f[0]] + (f[1..] + quote + rest)
  {
    assert f == [f[0]] + f[1..];
  }

  /** Text printed between quotes without escaping is read back as itself exactly when none of
      its characters needs an escape, whatever follows the closing quote. */
  lemma LiteralReadsBackIff(f: string, rest: string)
    ensures Plain(f) ==> ReadLiteral(f + "\"" + rest) == Some(Literal(f, rest))
    ensures !Plain(f) ==> ReadLiteral(f + "\"" + rest).None? || ReadLiteral(f + "\"" + rest).value.value != f
  {
    var s := f + "\"" + rest;
    if Plain(f) {
      PlainIsRead(f, rest);
    } else if ReadLiteral(s).Some? && ReadLiteral(s).value.value == f {
      assert s[|f|] == '\"' && forall i | 0 <= i < |f| :: s[i] == f[i];
      LiteralShape(s);
    }
  }

  // ----- the body

  function Field(key: string, value: string, rest: string): string {
    key + (value + "\"" + rest)
  }

  const ID := "{\"id\":\""
  const SIZE := ",\"size\":"
  const FEE := ",\"fee\":\""
  const CURRENCY := ",\"currency\":\""
  const BLOCK := ",\"block\":\""
  const VALIDATOR := ",\"validator\":\""
  const SIGNATURE := ",\"signature\":\""

  /** The line the builder prints: fields are put between quotes as they are. */
  function Printed(p: PrintedRequest): string {
    Field(ID, p.id, AfterId(p))
  }

  function AfterId(p: PrintedRequest): string {
    SIZE + (Decimal(p.size) + Field(FEE, p.fee, AfterFee(p)))
  }

  function AfterFee(p: PrintedRequest): string {
    Field(CURRENCY, p.currency, Field(BLOCK, p.block, AfterBlock(p)))
  }

  function AfterBlock(p: PrintedRequest): string {
    Field(VALIDATOR, p.validator, Field(SIGNATURE, p.signature, "}"))
  }

  function ReadField(key: string, text: string): Option<Literal> {
    if key <= text then ReadLiteral(text[|key|..]) else None
  }

  /** How many digits the text starts with. */
  function Digits(s: string): (n: nat)
    ensures n <= |s|
  {
    if s != "" && IsDigit(s[0]) then 1 + Digits(s[1..]) else 0
  }

  /** A number that fits the `size` field, and the text after it. */
  function ReadSize(text: string): Option<(u64, string)> {
    if !(SIZE <= text) then None
    else
      var t := text[|SIZE|..];
      var digits := t[..Digits(t)];
      if Canonical(digits) && DigitsValue(digits) < TWO_TO_THE_64
      then Some((DigitsValue(digits), t[Digits(t)..])) else None
  }

  /** Read a body whose keys come in the order of the builder. */
  function ReadBody(text: string): Option<PrintedRequest> {
    var id :- ReadField(ID, text);
    var (size, fee, afterFee) :- ReadAfterId(id.rest);
    var (currency, block, afterBlock) :- ReadAfterFee(afterFee);
    var (validator, signature) :- ReadAfterBlock(afterBlock);
    Some(PrintedRequest(id.value, size, fee, currency, block, validator, signature))
  }

  function ReadAfterId(text: string): Option<(u64, string, string)> {
    var (size, afterSize) :- ReadSize(text);
    var fee :- ReadField(FEE, afterSize);
    Some((size, fee.value, fee.rest))
  }

  function ReadAfterFee(text: string): Option<(string, string, string)> {
    var currency :- ReadField(CURRENCY, text);
    var block :- ReadField(BLOCK, currency.rest);
    Some((currency.value, block.value, block.rest))
  }

  function ReadAfterBlock(text: string): Option<(string, string)> {
    var validator :- ReadField(VALIDATOR, text);
    var signature :- ReadField(SIGNATURE, validator.rest);
    if signature.rest == "}" then Some((validator.value, signature.value)) else None
  }

  lemma FieldReadsBackIff(key: string, value: string, rest: string)
    ensures Plain(value) ==> ReadField(key, Field(key, value, rest)) == Some(Literal(value, rest))
    ensures var l := ReadField(key, Field(key, value, rest));
            !Plain(value) ==> l.None? || l.value.value != value
  {
    var text := Field(key, value, rest);
    assert text[|key|..] == value + "\"" + rest;
    LiteralReadsBackIff(value, rest);
  }

  lemma {:induction false} DigitsOfDecimal(s: string, rest: string)
    requires AllDigits(s) && (rest != "" ==> !IsDigit(rest[0]))
    ensures Digits(s + rest) == |s|
  {
    if s == "" {
      assert s + rest == rest;
    } else {
      assert s[0] in s;
      assert (s + rest)[1..] == s[1..] + rest;
      DigitsOfDecimal(s[1..], rest);
    }
  }

  lemma SizeReadsBack(size: u64, rest: string)
    requires rest != "" && !IsDigit(rest[0])
    ensures ReadSize(SIZE + (Decimal(size) + rest)) == Some((size, rest))
  {
    var t := Decimal(size) + rest;
    assert (SIZE + t)[|SIZE|..] == t;
    DecimalDigits(size);
    DigitsOfDecimal(Decimal(size), rest);
    assert t[..|Decimal(size)|] == Decimal(size) && t[|Decimal(size)|..] == rest;
  }

  lemma AfterBlockReadsBackIff(p: PrintedRequest)
    ensures var r := ReadAfterBlock(AfterBlock(p));
            if Plain(p.validator) && Plain(p.signature) then r == Some((p.validator, p.signature))
            else r.None? || r.value.0 != p.validator || r.value.1 != p.signature
  {
    FieldReadsBackIff(VALIDATOR, p.validator, Field(SIGNATURE, p.signature, "}"));
    FieldReadsBackIff(SIGNATURE, p.signature, "}");
  }

  lemma AfterIdReadsBack(p: PrintedRequest)
    requires Plain(p.fee)
    ensures ReadAfterId(AfterId(p)) == Some((p.size, p.fee, AfterFee(p)))
  {
    SizeReadsBack(p.size, Field(FEE, p.fee, AfterFee(p)));
    FieldReadsBackIff(FEE, p.fee, AfterFee(p));
  }

  lemma AfterFeeReadsBackIff(p: PrintedRequest)
    requires Plain(p.block)
    ensures var r := ReadAfterFee(AfterFee(p));
            if Plain(p.currency) then r == Some((p.currency, p.block, AfterBlock(p)))
            else r.None? || r.value.0 != p.currency
  {
    FieldReadsBackIff(CURRENCY, p.currency, Field(BLOCK, p.block, AfterBlock(p)));
    FieldReadsBackIff(BLOCK, p.block, AfterBlock(p));
  }

  /** The strings that the builder puts between quotes need no escape. */
  predicate AllPlain(p: PrintedRequest) {
    Plain(p.id) && Plain(p.currency) && Plain(p.validator) && Plain(p.signature)
  }

  /** The text is read back as `p`, or some string of `p` is not. */
  predicate ReadsBackIff(text: string, p: PrintedRequest) {
    var r := ReadBody(text);
    if AllPlain(p) then r == Some(p)
    else r.None? || r.value.id != p.id || r.value.currency != p.currency
         || r.value.validator != p.validator || r.value.signature != p.signature
  }

  /** From the parts to the whole. */
  lemma PartsReadBackIff(text: string, p: PrintedRequest, afterId: string, afterFee: string, afterBlock: string)
    requires var r := ReadField(ID, text);
             if Plain(p.id) then r == Some(Literal(p.id, afterId)) else r.None? || r.value.value != p.id
    requires ReadAfterId(afterId) == Some((p.size, p.fee, afterFee))
    requires var r := ReadAfterFee(afterFee);
             if Plain(p.currency) then r == Some((p.currency, p.block, afterBlock))
             else r.None? || r.value.0 != p.currency
    requires var r := ReadAfterBlock(afterBlock);
             if Plain(p.validator) && Plain(p.signature) then r == Some((p.validator, p.signature))
             else r.None? || r.value.0 != p.validator || r.value.1 != p.signature
    ensures ReadsBackIff(text, p)
  {
  }

  lemma PrintedReadsBackIff(p: PrintedRequest)
    requires Plain(p.fee) && Plain(p.block)
    ensures ReadsBackIff(Printed(p), p)
  {
    FieldReadsBackIff(ID, p.id, AfterId(p));
    AfterIdReadsBack(p);
    AfterFeeReadsBackIff(p);
    AfterBlockReadsBackIff(p);
    PartsReadBackIff(Printed(p), p, AfterId(p), AfterFee(p), AfterBlock(p));
  }

  lemma DecimalIsPlain(n: nat)
    ensures Plain(Decimal(n))
  {
    DecimalDigits(n);
  }

  /** The body is read, and `verify` rebuilds from it the list the builder signed and finds the
      builder's signature beside it. */
  predicate VerifyAgrees(
      text: string, tx: string, size: u64, fee: u128, currency: string, block: u128, validator: string, sig: string)
  {
    var p := ReadBody(text);
    p.Some? && Deserialize(p.value).Ok? &&
    var r := Deserialize(p.value).value;
    r.signature == sig && VerifyChunks(r) == BuilderChunks(tx, size, fee, currency, block, validator)
  }

  /** What the builder signed is what `verify` rebuilds from the line the builder printed, exactly
      when no string argument holds a quote, a backslash or a control character. */
  lemma BuilderAgreesWithVerifyIff(
      tx: string, size: u64, fee: u128, currency: string, block: u128, validator: string, sig: string)
    ensures VerifyAgrees(Printed(BuilderPrint(tx, size, fee, currency, block, validator, sig)),
                         tx, size, fee, currency, block, validator, sig)
       <==> Plain(tx) && Plain(currency) && Plain(validator) && Plain(sig)
  {
    var p := BuilderPrint(tx, size, fee, currency, block, validator, sig);
    DecimalIsPlain(fee);
    DecimalIsPlain(block);
    PrintedReadsBackIff(p);
    BuilderAgreesWithVerify(tx, size, fee, currency, block, validator, sig);
    var r := ReadBody(Printed(p));
    if r.Some? && Deserialize(r.value).Ok? {
      var chunks := VerifyChunks(Deserialize(r.value).value);
      var signed := BuilderChunks(tx, size, fee, currency, block, validator);
      assert chunks == signed ==> chunks[2] == signed[2] && chunks[5] == signed[5] && chunks[7] == signed[7];
    }
  }

  function Join(pieces: seq<string>): string {
    if pieces == [] then "" else pieces[0] + Join(pieces[1..])
  }

  lemma JoinCons(piece: string, rest: seq<string>)
    ensures Join([piece] + rest) == piece + Join(rest)
  {
    assert ([piece] + rest)[1..] == rest;
  }

  lemma JoinField(key: string, value: string, rest: seq<string>)
    ensures Field(key, value, Join(rest)) == Join([key, value, "\""] + rest)
  {
    var quote := ["\""] + rest;
    assert [key, value, "\""] + rest == [key] + ([value] + quote);
    JoinCons(key, [value] + quote);
    JoinCons(value, quote);
    JoinCons("\"", rest);
    assert value + "\"" + Join(rest) == value + ("\"" + Join(rest));
  }

  lemma JoinSize(key: string, size: string, rest: seq<string>)
    ensures key + (size + Join(rest)) == Join([key, size] + rest)
  {
    assert [key, size] + rest == [key] + ([size] + rest);
    JoinCons(key, [size] + rest);
    JoinCons(size, rest);
  }

  /** Seven fields, the second without quotes, under any keys. */
  lemma JoinFields(k: seq<string>, v: seq<string>, end: string)
    requires |k| == |v| == 7
    ensures Field(k[0], v[0], k[1] + (v[1] + Field(k[2], v[2], Field(k[3], v[3], Field(k[4], v[4],
              Field(k[5], v[5], Field(k[6], v[6], end))))))) ==
            Join([k[0], v[0], "\"", k[1], v[1], k[2], v[2], "\"", k[3], v[3], "\"", k[4], v[4], "\"",
                  k[5], v[5], "\"", k[6], v[6], "\"", end])
  {
    var r3 := [k[3], v[3], "\"", k[4], v[4], "\"", k[5], v[5], "\"", k[6], v[6], "\"", end];
    JoinLastFields(k, v, end);
    JoinFirstFields(k, v, r3);
    assert [k[0], v[0], "\"", k[1], v[1], k[2], v[2], "\""] + r3 ==
           [k[0], v[0], "\"", k[1], v[1], k[2], v[2], "\"", k[3], v[3], "\"", k[4], v[4], "\"",
            k[5], v[5], "\"", k[6], v[6], "\"", end];
  }

  lemma JoinFirstFields(k: seq<string>, v: seq<string>, rest: seq<string>)
    requires |k| == |v| == 7
    ensures Field(k[0], v[0], k[1] + (v[1] + Field(k[2], v[2], Join(rest)))) ==
            Join([k[0], v[0], "\"", k[1], v[1], k[2], v[2], "\""] + rest)
  {
    var r2 := [k[2], v[2], "\""] + rest;
    var r1 := [k[1], v[1]] + r2;
    JoinField(k[2], v[2], rest);
    JoinSize(k[1], v[1], r2);
    JoinField(k[0], v[0], r1);
    assert [k[0], v[0], "\""] + r1 == [k[0], v[0], "\"", k[1], v[1], k[2], v[2], "\""] + rest;
  }

  lemma JoinLastFields(k: seq<string>, v: seq<string>, end: string)
    requires |k| == |v| == 7
    ensures Field(k[3], v[3], Field(k[4], v[4], Field(k[5], v[5], Field(k[6], v[6], end)))) ==
            Join([k[3], v[3], "\"", k[4], v[4], "\"", k[5], v[5], "\"", k[6], v[6], "\"", end])
  {
    assert [end] == [end] + [] && end + "" == end;
    JoinCons(end, []);
    var r6 := [k[6], v[6], "\""] + [end];
    var r5 := [k[5], v[5], "\""] + r6;
    var r4 := [k[4], v[4], "\""] + r5;
    JoinField(k[6], v[6], [end]);
    JoinField(k[5], v[5], r6);
    JoinField(k[4], v[4], r5);
    JoinField(k[3], v[3], r4);
    assert [k[3], v[3], "\""] + r4 ==
           [k[3], v[3], "\"", k[4], v[4], "\"", k[5], v[5], "\"", k[6], v[6], "\"", end];
  }

  /** The printed line, piece by piece. */
  lemma PrintedLine(p: PrintedRequest)
    ensures Printed(p) == Join([
              "{\"id\":\"", p.id, "\"", ",\"size\":", Decimal(p.size), ",\"fee\":\"", p.fee, "\"",
              ",\"currency\":\"", p.currency, "\"", ",\"block\":\"", p.block, "\"",
              ",\"validator\":\"", p.validator, "\"", ",\"signature\":\"", p.signature, "\"", "}"])
  {
    JoinFields([ID, SIZE, FEE, CURRENCY, BLOCK, VALIDATOR, SIGNATURE],
               [p.id, Decimal(p.size), p.fee, p.currency, p.block, p.validator, p.signature], "}");
  }

  /** A quote in the transaction id ends it early. */
  lemma QuoteInIdIsNotRead(rest: string)
    ensures ReadField(ID, Field(ID, "a\"b", rest)) == Some(Literal("a", "b\"" + rest))
  {
    var text := Field(ID, "a\"b", rest);
    assert text[|ID|..] == "a\"b" + "\"" + rest == "a" + "\"" + ("b\"" + rest);
    PlainIsRead("a", "b\"" + rest);
  }
}
