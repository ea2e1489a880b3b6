/**
 The failure codec (echo-sdk-protocol/src/error.rs, `AgentFailureWire`): encoding as a typed record,
 decoding from a record or a map in any field order.
 */
module FailureCodec {
  import opened Prelude
  import opened Sorting
  import opened WireValues

  type u16 = n: nat | n < 0x1_0000

  datatype Failure = Failure(
    category: string,
    terminalKind: string,
    retryable: bool,
    code: string,
    httpStatus: Option<u16>,
    message: string)

  datatype FailureError =
    | NotARecordOrMap
    | WrongTypeId(typeId: string)
    | MapKeysMustBeStrings
    | UnknownField(name: string)
    | DuplicateField(name: string)
    | MustBeAString(name: string)
    | MustBeABool
    | Required(name: string)
    | StatusMustBeU64OrNull
    | StatusIsInvalid
    | StatusExceedsU16

  const FAILURE_TYPE_ID := "echo_sdk_protocol::error::AgentFailureWire"

  const FIELD_NAMES := ["category", "terminal_kind", "retryable", "code", "http_status", "message"]

  // ----- Decimal text of 64-bit numbers -----

  function DigitChar(d: nat): char
    requires d < 10
  {
    '0' + d as char
  }

  function Decimal(n: nat): string {
    if n < 10 then [DigitChar(n)] else Decimal(n / 10) + [DigitChar(n % 10)]
  }

  predicate IsDigit(c: char) {
    '0' <= c <= '9'
  }

  predicate AllDigits(text: string) {
    forall i :: 0 <= i < |text| ==> IsDigit(text[i])
  }

  function DigitsValue(text: string): nat
    requires AllDigits(text)
  {
    if text == [] then 0
    else
      assert IsDigit(text[|text| - 1]);
      10 * DigitsValue(text[..|text| - 1]) + (text[|text| - 1] as int - '0' as int)
  }

  /** Parsing a `u64`: an optional plus sign and at least one digit, within range. */
  function ParseU64(text: string): Option<nat> {
    var digits := if "+" <= text then text[1..] else text;
    if digits == [] || !AllDigits(digits) then None
    else if DigitsValue(digits) <= U64_MAX then Some(DigitsValue(digits)) else None
  }

  lemma {:induction false} DecimalIsDigits(n: nat)
    ensures Decimal(n) != [] && AllDigits(Decimal(n))
    ensures DigitsValue(Decimal(n)) == n
  {
    if n >= 10 {
      DecimalIsDigits(n / 10);
      assert Decimal(n)[..|Decimal(n)| - 1] == Decimal(n / 10);
    } else {
      assert Decimal(n)[..0] == [];
    }
  }

  /** The decimal text of a 64-bit number parses back to it. */
  lemma DecimalRoundTrip(n: nat)
    requires n <= U64_MAX
    ensures ParseU64(Decimal(n)) == Some(n)
  {
    DecimalIsDigits(n);
    assert IsDigit(Decimal(n)[0]);
  }

  function Zeros(n: nat): (zeros: string)
    ensures |zeros| == n && forall i :: 0 <= i < n ==> zeros[i] == '0'
  {
    seq(n, _ => '0')
  }

  lemma OneMoreDigit(init: string, c: char)
    requires IsDigit(c) && AllDigits(init)
    ensures DigitsValue(init + [c]) == 10 * DigitsValue(init) + (c as int - '0' as int)
  {
    assert (init + [c])[..|init|] == init;
  }

  lemma DecimalOfOneMore(n: nat, c: char)
    requires IsDigit(c)
    ensures var d := c as int - '0' as int;
            Decimal(10 * n + d) == if n == 0 then [c] else Decimal(n) + [c]
  {
    var d := c as int - '0' as int;
    assert (10 * n + d) / 10 == n && (10 * n + d) % 10 == d;
    assert DigitChar(d) == c;
  }

  lemma OneMoreZero(n: nat)
    ensures Zeros(n) + "0" == Zeros(n + 1)
  {
  }

  /** Digits have the value of the number that they spell after leading zeros. */
  lemma {:induction false} DigitsSpell(digits: string) returns (zeros: nat)
    requires digits != [] && AllDigits(digits)
    ensures digits == Zeros(zeros) + Decimal(DigitsValue(digits))
  {
    var init, c := digits[..|digits| - 1], digits[|digits| - 1];
    assert digits == init + [c];
    OneMoreDigit(init, c);
    DecimalOfOneMore(DigitsValue(init), c);
    if init == [] {
      zeros := 0;
    } else {
      zeros := DigitsSpell(init);
      if DigitsValue(init) == 0 {
        OneMoreZero(zeros);
        zeros := zeros + 1;
      }
    }
  }

  lemma {:induction false} ZerosBefore(zeros: nat, digits: string)
    requires AllDigits(digits)
    ensures DigitsValue(Zeros(zeros) + digits) == DigitsValue(digits)
    decreases zeros + |digits|
  {
    if digits != [] {
      var init, c := digits[..|digits| - 1], digits[|digits| - 1];
      assert Zeros(zeros) + digits == (Zeros(zeros) + init) + [c] && digits == init + [c];
      OneMoreDigit(init, c);
      OneMoreDigit(Zeros(zeros) + init, c);
      ZerosBefore(zeros, init);
    } else if zeros > 0 {
      assert Zeros(zeros) + digits == Zeros(zeros - 1) + ['0'] && Zeros(zeros - 1) + digits == Zeros(zeros - 1);
      OneMoreDigit(Zeros(zeros - 1), '0');
      ZerosBefore(zeros - 1, digits);
    } else {
      assert Zeros(zeros) + digits == [];
    }
  }

  /** The text is the number in decimal, perhaps after zeros and a plus sign. */
  ghost predicate Spells(text: string, n: nat) {
    exists zeros: nat :: text == Zeros(zeros) + Decimal(n) || text == "+" + Zeros(zeros) + Decimal(n)
  }

  /** A text parses to the 64-bit number that it spells, and any other text does not parse. */
  lemma ParsesExactly(text: string, n: nat)
    ensures ParseU64(text) == Some(n) <==> n <= U64_MAX && Spells(text, n)
  {
    if ParseU64(text) == Some(n) {
      var digits := if "+" <= text then text[1..] else text;
      var zeros := DigitsSpell(digits);
      if "+" <= text {
        assert text == "+" + digits == "+" + Zeros(zeros) + Decimal(n);
      }
    }
    if n <= U64_MAX && Spells(text, n) {
      var zeros: nat :| text == Zeros(zeros) + Decimal(n) || text == "+" + Zeros(zeros) + Decimal(n);
      SpelledParses(text, zeros, n);
    }
  }

  lemma SpelledParses(text: string, zeros: nat, n: nat)
    requires n <= U64_MAX && (text == Zeros(zeros) + Decimal(n) || text == "+" + Zeros(zeros) + Decimal(n))
    ensures ParseU64(text) == Some(n)
  {
    var digits := Zeros(zeros) + Decimal(n);
    DecimalIsDigits(n);
    ZerosBefore(zeros, Decimal(n));
    assert AllDigits(digits);
    assert text[0] == '+' ==> text == "+" + digits;
    assert text == "+" + digits ==> text[1..] == digits;
    assert (if "+" <= text then text[1..] else text) == digits;
  }

  // ----- What fields denote -----

  predicate NamesAllowed(fields: seq<Field>) {
    Distinct(Names(fields)) && forall i :: 0 <= i < |fields| ==> fields[i].name in FIELD_NAMES
  }

  /** The status that a field value stands for. */
  function StatusOf(value: Option<WireValue>): Result<Option<u16>, FailureError> {
    match value
    case None => Ok(None)
    case Some(Null) => Ok(None)
    case Some(U64(decimal)) =>
      (match ParseU64(decimal)
       case None => Err(StatusIsInvalid)
       case Some(n) => if n < 0x1_0000 then Ok(Some(n)) else Err(StatusExceedsU16))
    case Some(_) => Err(StatusMustBeU64OrNull)
  }

  /** The fields spell this failure. */
  ghost predicate Denotes(fields: seq<Field>, f: Failure) {
    && NamesAllowed(fields)
    && Lookup(fields, "category") == Some(String(f.category))
    && Lookup(fields, "terminal_kind") == Some(String(f.terminalKind))
    && Lookup(fields, "retryable") == Some(Bool(f.retryable))
    && Lookup(fields, "code") == Some(String(f.code))
    && StatusOf(Lookup(fields, "http_status")) == Ok(f.httpStatus)
    && Lookup(fields, "message") == Some(String(f.message))
  }

  ghost predicate ValueDenotes(value: WireValue, f: Failure) {
    match value
    case Record(typeId, fields) => typeId == FAILURE_TYPE_ID && Denotes(fields, f)
    case Map(entries) => AsFields(entries).Some? && Denotes(AsFields(entries).value, f)
    case _ => false
  }

  // ----- The codec -----

  /** `into_wire_value`. */
  function IntoWireValue(f: Failure): WireValue {
    Record(FAILURE_TYPE_ID, [
      Field("category", String(f.category)),
      Field("terminal_kind", String(f.terminalKind)),
      Field("retryable", Bool(f.retryable)),
      Field("code", String(f.code)),
      Field("http_status", if f.httpStatus.Some? then U64(Decimal(f.httpStatus.value)) else Null),
      Field("message", String(f.message))])
  }

  function StringField(fields: seq<Field>, name: string): Result<string, FailureError> {
    match Lookup(fields, name)
    case Some(String(text)) => Ok(text)
    case Some(_) => Err(MustBeAString(name))
    case None => Err(Required(name))
  }

  /** The error is true of the fields. */
  ghost predicate IsFault(fields: seq<Field>, error: FailureError) {
    match error
    case UnknownField(name) => name !in FIELD_NAMES && exists i :: 0 <= i < |fields| && fields[i].name == name
    case DuplicateField(name) => exists i, j :: 0 <= i < j < |fields| && fields[i].name == name == fields[j].name
    case Required(name) =>
      name in {"category", "terminal_kind", "retryable", "code", "message"} && Lookup(fields, name).None?
    case MustBeAString(name) =>
      && name in {"category", "terminal_kind", "code", "message"}
      && Lookup(fields, name).Some? && !Lookup(fields, name).value.String?
    case MustBeABool => Lookup(fields, "retryable").Some? && !Lookup(fields, "retryable").value.Bool?
    case _ => IsStatusFault(Lookup(fields, "http_status"), error)
  }

  predicate IsStatusFault(value: Option<WireValue>, error: FailureError) {
    && value.Some?
    && match error
       case StatusMustBeU64OrNull => !value.value.Null? && !value.value.U64?
       case StatusIsInvalid => value.value.U64? && ParseU64(value.value.decimal).None?
       case StatusExceedsU16 =>
         && value.value.U64? && ParseU64(value.value.decimal).Some?
         && ParseU64(value.value.decimal).value >= 0x1_0000
       case _ => false
  }

  method CheckNames(fields: seq<Field>) returns (r: Result<(), FailureError>)
    ensures r.Ok? <==> NamesAllowed(fields)
    ensures r.Err? ==> (r.error.UnknownField? || r.error.DuplicateField?) && IsFault(fields, r.error)
  {
    var seen: set<string> := {};
    var n := 0;
    while n < |fields|
      invariant 0 <= n <= |fields|
      invariant seen == set i | 0 <= i < n :: fields[i].name
      invariant forall i :: 0 <= i < n ==> fields[i].name in FIELD_NAMES
      invariant forall i, j :: 0 <= i < j < n ==> fields[i].name != fields[j].name
    {
      if fields[n].name !in FIELD_NAMES {
        return Err(UnknownField(fields[n].name));
      }
      if fields[n].name in seen {
        ghost var i :| 0 <= i < n && fields[i].name == fields[n].name;
        assert Names(fields)[i] == Names(fields)[n];
        return Err(DuplicateField(fields[n].name));
      }
      seen := seen + {fields[n].name};
      n := n + 1;
    }
    return Ok(());
  }

  /** `from_fields`: decodes exactly the field lists that denote a failure, to that failure. */
  method FromFields(fields: seq<Field>) returns (r: Result<Failure, FailureError>)
    ensures r.Ok? ==> Denotes(fields, r.value)
    ensures r.Err? ==> IsFault(fields, r.error) && forall f :: !Denotes(fields, f)
  {
    var names := CheckNames(fields);
    if names.Err? {
      return Err(names.error);
    }
    var retryable;
    match Lookup(fields, "retryable") {
      case Some(Bool(value)) => retryable := value;
      case Some(_) => return Err(MustBeABool);
      case None => return Err(Required("retryable"));
    }
    var status := StatusOf(Lookup(fields, "http_status"));
    if status.Err? {
      return Err(status.error);
    }
    var category := StringField(fields, "category");
    if category.Err? {
      return Err(category.error);
    }
    var terminalKind := StringField(fields, "terminal_kind");
    if terminalKind.Err? {
      return Err(terminalKind.error);
    }
    var code := StringField(fields, "code");
    if code.Err? {
      return Err(code.error);
    }
    var message := StringField(fields, "message");
    if message.Err? {
      return Err(message.error);
    }
    return Ok(Failure(category.value, terminalKind.value, retryable, code.value, status.value, message.value));
  }

  ghost predicate IsValueFault(value: WireValue, error: FailureError) {
    match value
    case Record(typeId, fields) =>
      if typeId != FAILURE_TYPE_ID then error == WrongTypeId(typeId) else IsFault(fields, error)
    case Map(entries) =>
      if AsFields(entries).None? then error == MapKeysMustBeStrings else IsFault(AsFields(entries).value, error)
    case _ => error == NotARecordOrMap
  }

  /** `from_wire_value`. */
  method FromWireValue(value: WireValue) returns (r: Result<Failure, FailureError>)
    ensures r.Ok? ==> ValueDenotes(value, r.value)
    ensures r.Err? ==> IsValueFault(value, r.error) && forall f :: !ValueDenotes(value, f)
  {
    match value
    case Record(typeId, fields) =>
      if typeId != FAILURE_TYPE_ID {
        return Err(WrongTypeId(typeId));
      }
      r := FromFields(fields);
    case Map(entries) =>
      var owned: seq<Field> := [];
      for n := 0 to |entries|
        invariant |owned| == n
        invariant forall i :: 0 <= i < n ==>
                    entries[i].key.String? && owned[i] == Field(entries[i].key.text, entries[i].value)
      {
        if !entries[n].key.String? {
          return Err(MapKeysMustBeStrings);
        }
        owned := owned + [Field(entries[n].key.text, entries[n].value)];
      }
      assert AsFields(entries).value == owned;
      r := FromFields(owned);
    case _ => return Err(NotARecordOrMap);
  }

  // ----- What the codec promises -----

  lemma LookupAt(fields: seq<Field>, i: nat)
    requires Distinct(Names(fields)) && i < |fields|
    ensures Lookup(fields, fields[i].name) == Some(fields[i].value)
  {
    LookupIsMembership(fields, fields[i].name, fields[i].value);
  }

  lemma EncodedNames(f: Failure)
    ensures NamesAllowed(IntoWireValue(f).fields)
  {
    assert Names(IntoWireValue(f).fields) == FIELD_NAMES;
  }

  lemma EncodedFields(f: Failure)
    ensures var fields := IntoWireValue(f).fields;
            && Lookup(fields, "category") == Some(String(f.category))
            && Lookup(fields, "terminal_kind") == Some(String(f.terminalKind))
            && Lookup(fields, "retryable") == Some(Bool(f.retryable))
            && Lookup(fields, "code") == Some(String(f.code))
            && Lookup(fields, "http_status")
               == Some(if f.httpStatus.Some? then U64(Decimal(f.httpStatus.value)) else Null)
            && Lookup(fields, "message") == Some(String(f.message))
  {
    var fields := IntoWireValue(f).fields;
    EncodedNames(f);
    LookupAt(fields, 0);
    LookupAt(fields, 1);
    LookupAt(fields, 2);
    LookupAt(fields, 3);
    LookupAt(fields, 4);
    LookupAt(fields, 5);
  }

  /** Decoding an encoded failure yields the failure, and nothing else. */
  lemma RoundTrip(f: Failure, g: Failure)
    ensures ValueDenotes(IntoWireValue(f), g) <==> g == f
  {
    EncodedNames(f);
    EncodedFields(f);
    if f.httpStatus.Some? {
      DecimalRoundTrip(f.httpStatus.value);
    }
  }

  /** A value spells at most one failure. */
  lemma DecodingIsUnique(value: WireValue, f: Failure, g: Failure)
    requires ValueDenotes(value, f) && ValueDenotes(value, g)
    ensures f == g
  {
  }

  lemma AllowedIgnoresOrder(a: seq<Field>, b: seq<Field>)
    requires multiset(a) == multiset(b)
    ensures NamesAllowed(a) <==> NamesAllowed(b)
  {
    PermutedNames(a, b);
    AllowedByMembership(a);
    AllowedByMembership(b);
  }

  /** Decoding does not depend on the order of the fields. */
  lemma OrderDoesNotMatter(a: seq<Field>, b: seq<Field>, f: Failure)
    requires multiset(a) == multiset(b)
    ensures Denotes(a, f) <==> Denotes(b, f)
  {
    AllowedIgnoresOrder(a, b);
    if NamesAllowed(a) {
      LookupIgnoresOrder(a, b, "category");
      LookupIgnoresOrder(a, b, "terminal_kind");
      LookupIgnoresOrder(a, b, "retryable");
      LookupIgnoresOrder(a, b, "code");
      LookupIgnoresOrder(a, b, "http_status");
      LookupIgnoresOrder(a, b, "message");
    }
  }

  lemma AllowedByMembership(fields: seq<Field>)
    ensures NamesAllowed(fields) <==> Distinct(Names(fields)) && forall x :: x in fields ==> x.name in FIELD_NAMES
  {
  }

  /** The record and the map spelling of the same fields decode alike. */
  lemma SpellingDoesNotMatter(fields: seq<Field>, f: Failure)
    ensures ValueDenotes(Record(FAILURE_TYPE_ID, fields), f) <==> ValueDenotes(Map(AsEntries(fields)), f)
  {
  }

  predicate IsString(value: Option<WireValue>) {
    value.Some? && value.value.String?
  }

  /** Decoding succeeds exactly on fields of allowed and distinct names, with all required fields well
      typed and a status that is absent, null or a 16-bit number. */
  lemma DecodesExactly(fields: seq<Field>)
    ensures (exists f :: Denotes(fields, f)) <==>
            && NamesAllowed(fields)
            && IsString(Lookup(fields, "category")) && IsString(Lookup(fields, "terminal_kind"))
            && IsString(Lookup(fields, "code")) && IsString(Lookup(fields, "message"))
            && Lookup(fields, "retryable").Some? && Lookup(fields, "retryable").value.Bool?
            && match Lookup(fields, "http_status")
               case None => true
               case Some(Null) => true
               case Some(U64(decimal)) => ParseU64(decimal).Some? && ParseU64(decimal).value < 0x1_0000
               case _ => false
  {
    var status := StatusOf(Lookup(fields, "http_status"));
    if && NamesAllowed(fields) && status.Ok?
       && IsString(Lookup(fields, "category")) && IsString(Lookup(fields, "terminal_kind"))
       && IsString(Lookup(fields, "code")) && IsString(Lookup(fields, "message"))
       && Lookup(fields, "retryable").Some? && Lookup(fields, "retryable").value.Bool?
    {
      var f := Failure(Lookup(fields, "category").value.text, Lookup(fields, "terminal_kind").value.text,
                       Lookup(fields, "retryable").value.value, Lookup(fields, "code").value.text,
                       status.value, Lookup(fields, "message").value.text);
      assert Denotes(fields, f);
    }
  }
}
