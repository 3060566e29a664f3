/**
 How long a request body is, read from the raw headers. Three readers share the question: the strict one of the
 source-admission route, the one that decides whether a rejected body may be discarded, and the ordinary one.
 */
module HeaderFraming {
  import opened Common

  /** One raw header field, in order of arrival. */
  datatype Header = Header(name: string, value: string)

  datatype Framing = Accepted(count: nat) | Refused(status: int, code: string)

  const MAX_DISCARD: nat := 1048576

  /** Decimal digits without a leading zero. */
  predicate Positive(s: string) {
    s != "" && Digits(s) && s[0] != '0'
  }

  /** Decimal digits without a superfluous leading zero. */
  predicate Canonical(s: string) {
    s == "0" || Positive(s)
  }

  function Number(s: string): nat
    requires Digits(s)
  {
    if s == "" then 0 else 10 * Number(s[..|s| - 1]) + (s[|s| - 1] as int - '0' as int)
  }

  /** A canonical length, once read, is written back character for character. */
  lemma {:induction false} DecimalOfNumber(s: string)
    requires Canonical(s)
    ensures Decimal(Number(s)) == s && (s != "0" ==> Number(s) > 0)
  {
    if |s| > 1 {
      var init := s[..|s| - 1];
      assert init[0] == s[0];
      DecimalOfNumber(init);
      assert s == init + [s[|s| - 1]];
    } else {
      assert s == [s[0]] && s[..0] == "";
    }
  }

  function Values(headers: seq<Header>, name: string): seq<string> {
    if headers == [] then []
    else
      Values(headers[..|headers| - 1], name)
      + (if Lower(headers[|headers| - 1].name) == name then [headers[|headers| - 1].value] else [])
  }

  predicate Has(headers: seq<Header>, name: string) {
    Values(headers, name) != []
  }

  predicate Blank(c: char) {
    c == ' ' || c == '\t'
  }

  function TrimBlanks(s: string): string
    decreases |s|
  {
    if s != "" && Blank(s[0]) then TrimBlanks(s[1..])
    else if s != "" && Blank(s[|s| - 1]) then TrimBlanks(s[..|s| - 1])
    else s
  }

  /** What a route of the source-admission API takes: a media type with a limit, or no body at all. */
  datatype Policy = Policy(media: Option<string>, maxBytes: nat, upload: bool, absoluteMs: nat, idleMs: Option<nat>)

  /** The strict reader: no coding, no trailers, the one media type, one canonical length up to eight digits. */
  function SourceBodyLength(headers: seq<Header>, policy: Policy): Framing {
    var lengths, types := Values(headers, "content-length"), Values(headers, "content-type");
    if Has(headers, "transfer-encoding") || Has(headers, "content-encoding") || Has(headers, "trailer") then
      Refused(400, "invalid_upload_framing")
    else if policy.media.None? then
      if lengths != [] && lengths != ["0"] then Refused(400, "invalid_body") else Accepted(0)
    else if |types| != 1 || TrimBlanks(types[0]) != policy.media.value then
      Refused(400, "invalid_stage_content_type")
    else if |lengths| != 1 || !Positive(lengths[0]) || |lengths[0]| > 8 then
      Refused(400, "invalid_upload_framing")
    else if Number(lengths[0]) > policy.maxBytes then
      Refused(413, if policy.upload then "archive_too_large" else "invalid_body")
    else Accepted(Number(lengths[0]))
  }

  /** How many bytes of a rejected body may be read and dropped; none when the length is in doubt or too great. */
  function RejectedFixedBodyLength(headers: seq<Header>): Option<nat> {
    var lengths := Values(headers, "content-length");
    if Has(headers, "transfer-encoding") || Has(headers, "content-encoding") || Has(headers, "trailer") then None
    else if |lengths| != 1 || !Canonical(lengths[0]) || |lengths[0]| > 8 || Number(lengths[0]) > MAX_DISCARD then None
    else Some(Number(lengths[0]))
  }

  function GenericFixedBodyLength(headers: seq<Header>): Option<nat> {
    var lengths := Values(headers, "content-length");
    if Has(headers, "transfer-encoding") || |lengths| != 1 || !Canonical(lengths[0]) then None
    else Some(Number(lengths[0]))
  }

  lemma {:induction false} ValuesGrow(headers: seq<Header>, n: nat, name: string)
    requires n <= |headers|
    ensures |Values(headers[..n], name)| <= |Values(headers, name)|
  {
    if n < |headers| {
      ValuesGrow(headers[..|headers| - 1], n, name);
      assert headers[..|headers| - 1][..n] == headers[..n];
    } else {
      assert headers[..n] == headers;
    }
  }

  function Filed(fields: map<string, seq<string>>, name: string): seq<string> {
    if name in fields then fields[name] else []
  }

  lemma ValuesStep(headers: seq<Header>, i: nat, name: string)
    requires i < |headers|
    ensures Values(headers[..i + 1], name)
            == Values(headers[..i], name) + (if Lower(headers[i].name) == name then [headers[i].value] else [])
  {
    assert headers[..i + 1][..i] == headers[..i];
    hide Lower;
  }

  /** The first `n` fields are filed. */
  ghost predicate FiledUpTo(headers: seq<Header>, n: nat, fields: map<string, seq<string>>)
    requires n <= |headers|
  {
    forall name :: Filed(fields, name) == Values(headers[..n], name)
  }

  lemma FiledStep(headers: seq<Header>, i: nat, fields: map<string, seq<string>>)
    requires i < |headers| && FiledUpTo(headers, i, fields)
    ensures var name := Lower(headers[i].name);
            FiledUpTo(headers, i + 1, fields[name := Filed(fields, name) + [headers[i].value]])
  {
    hide Values, Lower;
    var filed := Lower(headers[i].name);
    var fields' := fields[filed := Filed(fields, filed) + [headers[i].value]];
    forall name
      ensures Filed(fields', name) == Values(headers[..i + 1], name)
    {
      ValuesStep(headers, i, name);
      assert Filed(fields, name) == Values(headers[..i], name);
    }
  }

  /** Files every field under its lower-case name. */
  method FileHeaders(headers: seq<Header>) returns (fields: map<string, seq<string>>)
    ensures forall name :: Filed(fields, name) == Values(headers, name)
    ensures forall name :: name in fields ==> fields[name] != []
  {
    fields := map[];
    for i := 0 to |headers|
      invariant FiledUpTo(headers, i, fields)
      invariant forall name :: name in fields ==> fields[name] != []
    {
      hide Values, Lower, FiledUpTo;
      FiledStep(headers, i, fields);
      var name := Lower(headers[i].name);
      fields := fields[name := Filed(fields, name) + [headers[i].value]];
    }
    assert headers[..|headers|] == headers;
  }

  // What the readers accept, said of the raw fields alone.

  /** No field has this name, in whatever case. */
  ghost predicate NoField(headers: seq<Header>, name: string) {
    forall k :: 0 <= k < |headers| ==> !Spells(headers[k].name, name)
  }

  /** Exactly one field has this name, and `value` is its value. */
  ghost predicate OneField(headers: seq<Header>, name: string, value: string) {
    exists k :: 0 <= k < |headers| && Spells(headers[k].name, name) && headers[k].value == value
      && forall j :: 0 <= j < |headers| && j != k ==> !Spells(headers[j].name, name)
  }

  lemma NoFieldAppend(init: seq<Header>, last: Header, name: string)
    ensures NoField(init + [last], name) <==> NoField(init, name) && !Spells(last.name, name)
  {
    hide Spells;
    assert (init + [last])[|init|] == last;
    forall k | 0 <= k < |init|
      ensures (init + [last])[k] == init[k]
    {
    }
  }

  lemma OneFieldAppend(init: seq<Header>, last: Header, name: string, value: string)
    ensures OneField(init + [last], name, value) <==>
            if Spells(last.name, name) then NoField(init, name) && last.value == value else OneField(init, name, value)
  {
    hide Spells;
    var all := init + [last];
    assert all[|init|] == last && forall k :: 0 <= k < |init| ==> all[k] == init[k];
    if OneField(init, name, value) {
      var k :| 0 <= k < |init| && Spells(init[k].name, name) && init[k].value == value
        && forall j :: 0 <= j < |init| && j != k ==> !Spells(init[j].name, name);
      assert Spells(all[k].name, name);
    }
    if OneField(all, name, value) {
      var k :| 0 <= k < |all| && Spells(all[k].name, name) && all[k].value == value
        && forall j :: 0 <= j < |all| && j != k ==> !Spells(all[j].name, name);
      if k < |init| {
        assert !Spells(all[|init|].name, name) && Spells(init[k].name, name);
      } else {
        forall j | 0 <= j < |init|
          ensures !Spells(init[j].name, name)
        {
          assert !Spells(all[j].name, name);
        }
      }
    }
  }

  lemma {:induction false} FieldsAre(headers: seq<Header>, name: string, value: string)
    ensures Values(headers, name) == [] <==> NoField(headers, name)
    ensures Values(headers, name) == [value] <==> OneField(headers, name, value)
  {
    hide Lower, Spells, NoField, OneField;
    if headers != [] {
      var init, last := headers[..|headers| - 1], headers[|headers| - 1];
      assert headers == init + [last];
      FieldsAre(init, name, value);
      SpellsLower(last.name, name);
      NoFieldAppend(init, last, name);
      OneFieldAppend(init, last, name, value);
      LastAlone(Values(init, name), last.value, value);
    } else {
      NoFields(name, value);
    }
  }

  lemma LastAlone(values: seq<string>, last: string, value: string)
    ensures values + [last] == [value] <==> values == [] && last == value
  {
    if values == [] {
      assert values + [last] == [last];
    } else {
      assert |values + [last]| > 1;
    }
    assert [last][0] == last && [value][0] == value;
  }

  lemma NoFields(name: string, value: string)
    ensures NoField([], name) && !OneField([], name, value)
  {
  }

  lemma {:induction false} TrimFinds(s: string)
    ensures Tidy(Blank, TrimBlanks(s)) && Padded(Blank, s, TrimBlanks(s))
    decreases |s|
  {
    if s != "" && Blank(s[0]) {
      TrimFinds(s[1..]);
      PaddedMore(Blank, s[0], s[1..], TrimBlanks(s));
      assert [s[0]] + s[1..] == s;
    } else if s != "" && Blank(s[|s| - 1]) {
      var init := s[..|s| - 1];
      TrimFinds(init);
      PaddedMore(Blank, s[|s| - 1], init, TrimBlanks(s));
      assert init + [s[|s| - 1]] == s;
    } else {
      PaddedSelf(Blank, s);
    }
  }

  lemma TrimIff(s: string, core: string)
    ensures TrimBlanks(s) == core <==> Tidy(Blank, core) && Padded(Blank, s, core)
  {
    TrimFinds(s);
    if Tidy(Blank, core) && Padded(Blank, s, core) {
      PaddedOnce(Blank, s, core, TrimBlanks(s));
    }
  }

  lemma {:induction false} NumberOfDecimal(n: nat)
    ensures Number(Decimal(n)) == n && Canonical(Decimal(n)) && (n > 0 ==> Positive(Decimal(n)))
  {
    if n >= 10 {
      NumberOfDecimal(n / 10);
      var s := Decimal(n);
      assert s[..|s| - 1] == Decimal(n / 10) && s[0] == Decimal(n / 10)[0];
    } else {
      var s := Decimal(n);
      assert s[..0] == "";
    }
  }

  lemma {:induction false} NumberBound(s: string)
    requires Digits(s)
    ensures Number(s) < Pow10(|s|)
  {
    if s != "" {
      NumberBound(s[..|s| - 1]);
    }
  }

  lemma EightDigits(n: nat)
    ensures |Decimal(n)| <= 8 <==> n <= 99999999
  {
    assert Pow10(8) == 100000000;
    if n <= 99999999 {
      DecimalLength(n, 8);
    }
    if |Decimal(n)| <= 8 {
      NumberOfDecimal(n);
      NumberBound(Decimal(n));
      PowMonotone(|Decimal(n)|, 8);
    }
  }

  lemma {:induction false} PowMonotone(a: nat, b: nat)
    requires a <= b
    ensures Pow10(a) <= Pow10(b)
  {
    if a < b {
      PowMonotone(a, b - 1);
    }
  }

  /** The one length field says `n`, in decimal digits without a superfluous zero. */
  ghost predicate LengthIs(headers: seq<Header>, n: nat) {
    OneField(headers, "content-length", Decimal(n))
  }

  ghost predicate Coded(headers: seq<Header>) {
    !NoField(headers, "transfer-encoding") || !NoField(headers, "content-encoding") || !NoField(headers, "trailer")
  }

  predicate SpacesAndTabs(s: string) {
    forall i :: 0 <= i < |s| ==> s[i] == ' ' || s[i] == '\t'
  }

  /** `value` is `media`, which neither begins nor ends with a space or tab, with only such around it. */
  ghost predicate IsType(value: string, media: string, before: string, after: string) {
    && value == before + media + after && SpacesAndTabs(before) && SpacesAndTabs(after)
    && (media != "" ==> !SpacesAndTabs(media[..1]) && !SpacesAndTabs(media[|media| - 1..]))
  }

  /** The one content type is `media`, with nothing but spaces and tabs around it. */
  ghost predicate TypeIs(headers: seq<Header>, media: string) {
    exists value, before, after :: OneField(headers, "content-type", value) && IsType(value, media, before, after)
  }

  lemma IsTypeIff(value: string, media: string)
    ensures Tidy(Blank, media) && Padded(Blank, value, media)
            <==> exists before, after :: IsType(value, media, before, after)
  {
    if media != "" {
      assert media[..1] == [media[0]] && media[|media| - 1..] == [media[|media| - 1]];
      assert SpacesAndTabs(media[..1]) <==> Blank(media[..1][0]);
      assert SpacesAndTabs(media[|media| - 1..]) <==> Blank(media[|media| - 1..][0]);
    }
    forall s: string
      ensures BlankOnly(Blank, s) <==> SpacesAndTabs(s)
    {
      BlanksAre(s);
    }
    hide SpacesAndTabs, BlankOnly, Blank;
    if Tidy(Blank, media) && Padded(Blank, value, media) {
      var before, after :| PaddedBy(Blank, value, before, media, after);
      assert IsType(value, media, before, after);
    }
    if before, after :| IsType(value, media, before, after) {
      assert PaddedBy(Blank, value, before, media, after);
    }
  }

  lemma BlanksAre(s: string)
    ensures BlankOnly(Blank, s) <==> SpacesAndTabs(s)
  {
  }

  lemma CodedIff(headers: seq<Header>)
    ensures Coded(headers) <==>
            Has(headers, "transfer-encoding") || Has(headers, "content-encoding") || Has(headers, "trailer")
  {
    hide Values, NoField, OneField;
    FieldsAre(headers, "transfer-encoding", "");
    FieldsAre(headers, "content-encoding", "");
    FieldsAre(headers, "trailer", "");
  }

  lemma TypeIff(headers: seq<Header>, media: string)
    ensures var types := Values(headers, "content-type");
            TypeIs(headers, media) <==> |types| == 1 && TrimBlanks(types[0]) == media
  {
    hide Values, NoField, OneField, TrimBlanks, Tidy, Padded, IsType;
    var types := Values(headers, "content-type");
    if |types| == 1 {
      assert types == [types[0]];
      FieldsAre(headers, "content-type", types[0]);
      TrimIff(types[0], media);
      IsTypeIff(types[0], media);
    }
    if TypeIs(headers, media) {
      var value, before, after :| OneField(headers, "content-type", value) && IsType(value, media, before, after);
      FieldsAre(headers, "content-type", value);
      TrimIff(value, media);
      IsTypeIff(value, media);
    }
  }

  /** Reading the one canonical length. */
  lemma LengthIff(headers: seq<Header>, n: nat)
    ensures var lengths := Values(headers, "content-length");
            LengthIs(headers, n) <==> |lengths| == 1 && Canonical(lengths[0]) && Number(lengths[0]) == n
  {
    hide Values, NoField, OneField, Decimal, Number;
    var lengths := Values(headers, "content-length");
    FieldsAre(headers, "content-length", Decimal(n));
    NumberOfDecimal(n);
    if |lengths| == 1 && Canonical(lengths[0]) && Number(lengths[0]) == n {
      DecimalOfNumber(lengths[0]);
    }
  }

  /** What the strict reader answers, refusal by refusal, in the order in which it refuses. */
  ghost predicate StrictAnswer(headers: seq<Header>, policy: Policy, framing: Framing) {
    if Coded(headers) then framing == Refused(400, "invalid_upload_framing")
    else if policy.media.None? then
      framing == if NoField(headers, "content-length") || OneField(headers, "content-length", "0") then Accepted(0)
                 else Refused(400, "invalid_body")
    else if !TypeIs(headers, policy.media.value) then framing == Refused(400, "invalid_stage_content_type")
    else if exists n: nat :: 1 <= n <= 99999999 && LengthIs(headers, n) then
      exists n: nat :: 1 <= n <= 99999999 && LengthIs(headers, n)
        && framing == if n <= policy.maxBytes then Accepted(n)
                      else Refused(413, if policy.upload then "archive_too_large" else "invalid_body")
    else framing == Refused(400, "invalid_upload_framing")
  }

  lemma NoBodyIff(headers: seq<Header>)
    ensures var lengths := Values(headers, "content-length");
            lengths == [] || lengths == ["0"]
            <==> NoField(headers, "content-length") || OneField(headers, "content-length", "0")
  {
    FieldsAre(headers, "content-length", "0");
  }

  lemma PositiveLengthIff(headers: seq<Header>, n: nat)
    ensures var lengths := Values(headers, "content-length");
            1 <= n <= 99999999 && LengthIs(headers, n)
            <==> |lengths| == 1 && Positive(lengths[0]) && |lengths[0]| <= 8 && Number(lengths[0]) == n
  {
    hide Values, Decimal, Number, LengthIs;
    var lengths := Values(headers, "content-length");
    LengthIff(headers, n);
    EightDigits(n);
    NumberOfDecimal(n);
    if |lengths| == 1 && Canonical(lengths[0]) {
      DecimalOfNumber(lengths[0]);
      ZeroIsZero();
    }
  }

  lemma ZeroIsZero()
    ensures Digits("0") && Number("0") == 0
  {
    assert "0"[..0] == "";
  }

  lemma StrictAnswers(headers: seq<Header>, policy: Policy)
    ensures StrictAnswer(headers, policy, SourceBodyLength(headers, policy))
  {
    hide Values, TrimBlanks, Number, Coded, TypeIs, LengthIs, NoField, OneField;
    var lengths := Values(headers, "content-length");
    CodedIff(headers);
    NoBodyIff(headers);
    if policy.media.Some? {
      TypeIff(headers, policy.media.value);
    }
    if |lengths| == 1 && Positive(lengths[0]) {
      PositiveLengthIff(headers, Number(lengths[0]));
    }
    forall n: nat
      ensures 1 <= n <= 99999999 && LengthIs(headers, n)
              ==> |lengths| == 1 && Positive(lengths[0]) && |lengths[0]| <= 8 && Number(lengths[0]) == n
    {
      PositiveLengthIff(headers, n);
    }
  }

  /**
   A request with these fields may carry a body of `n` bytes: no field announces a coding or trailers, the one content
   type is the policy's, and the one length says `n`, positive, of at most eight digits and within the limit; where the
   policy takes no body, a length, if any, says 0.
   */
  ghost predicate MayCarry(headers: seq<Header>, policy: Policy, n: nat) {
    && !Coded(headers)
    && (if policy.media.None? then
          n == 0 && (NoField(headers, "content-length") || OneField(headers, "content-length", "0"))
        else
          TypeIs(headers, policy.media.value) && LengthIs(headers, n) && 1 <= n <= 99999999 && n <= policy.maxBytes)
  }

  lemma OneLength(headers: seq<Header>, m: nat, n: nat)
    requires LengthIs(headers, m) && LengthIs(headers, n)
    ensures m == n
  {
    hide Values, Number, LengthIs;
    LengthIff(headers, m);
    LengthIff(headers, n);
  }

  /** The strict reader accepts a length if and only if the request may carry a body of that length. */
  lemma StrictAcceptsIff(headers: seq<Header>, policy: Policy, n: nat)
    ensures SourceBodyLength(headers, policy) == Accepted(n) <==> MayCarry(headers, policy, n)
  {
    hide Coded, TypeIs, LengthIs, NoField, OneField, SourceBodyLength;
    StrictAnswers(headers, policy);
    if LengthIs(headers, n) {
      forall m: nat | LengthIs(headers, m)
        ensures m == n
      {
        OneLength(headers, m, n);
      }
    }
  }

  /** The other two readers, over raw fields. */
  lemma FixedLengthIff(headers: seq<Header>, n: nat)
    ensures RejectedFixedBodyLength(headers) == Some(n) <==>
            !Coded(headers) && LengthIs(headers, n) && n <= 1048576
    ensures GenericFixedBodyLength(headers) == Some(n) <==>
            NoField(headers, "transfer-encoding") && LengthIs(headers, n)
  {
    hide Values, Number, Coded, LengthIs, NoField, OneField;
    CodedIff(headers);
    LengthIff(headers, n);
    FieldsAre(headers, "transfer-encoding", "");
    var lengths := Values(headers, "content-length");
    if |lengths| == 1 && Canonical(lengths[0]) {
      DecimalOfNumber(lengths[0]);
      EightDigits(Number(lengths[0]));
    }
  }

  lemma FixedLengths(headers: seq<Header>)
    ensures forall n: nat :: RejectedFixedBodyLength(headers) == Some(n) <==>
                             !Coded(headers) && LengthIs(headers, n) && n <= 1048576
    ensures forall n: nat :: GenericFixedBodyLength(headers) == Some(n) <==>
                             NoField(headers, "transfer-encoding") && LengthIs(headers, n)
  {
    hide RejectedFixedBodyLength, GenericFixedBodyLength, Coded, LengthIs, NoField;
    forall n: nat
      ensures RejectedFixedBodyLength(headers) == Some(n) <==>
              !Coded(headers) && LengthIs(headers, n) && n <= 1048576
      ensures GenericFixedBodyLength(headers) == Some(n) <==>
              NoField(headers, "transfer-encoding") && LengthIs(headers, n)
    {
      FixedLengthIff(headers, n);
    }
  }

  /** The strict reader as the route runs it. */
  method ScanStrict(headers: seq<Header>, policy: Policy) returns (framing: Framing)
    ensures framing == SourceBodyLength(headers, policy) && StrictAnswer(headers, policy, framing)
  {
    StrictAnswers(headers, policy);
    hide Values, TrimBlanks, Number, Lower, StrictAnswer;
    var fields := FileHeaders(headers);
    var lengths, types := Filed(fields, "content-length"), Filed(fields, "content-type");
    assert lengths == Values(headers, "content-length") && types == Values(headers, "content-type");
    assert Filed(fields, "transfer-encoding") == Values(headers, "transfer-encoding");
    assert Filed(fields, "content-encoding") == Values(headers, "content-encoding");
    assert Filed(fields, "trailer") == Values(headers, "trailer");
    if "transfer-encoding" in fields || "content-encoding" in fields || "trailer" in fields {
      return Refused(400, "invalid_upload_framing");
    }
    if policy.media.None? {
      if lengths != [] && (|lengths| != 1 || lengths[0] != "0") {
        return Refused(400, "invalid_body");
      }
      return Accepted(0);
    }
    if |types| != 1 || TrimBlanks(types[0]) != policy.media.value {
      return Refused(400, "invalid_stage_content_type");
    }
    if |lengths| != 1 || !Positive(lengths[0]) || |lengths[0]| > 8 {
      return Refused(400, "invalid_upload_framing");
    }
    var count := Number(lengths[0]);
    if count > policy.maxBytes {
      return Refused(413, if policy.upload then "archive_too_large" else "invalid_body");
    }
    return Accepted(count);
  }

  /** The scan for a discardable length: one pass that gives up at the first field that puts the length in doubt. */
  method ScanRejected(headers: seq<Header>) returns (count: Option<nat>)
    ensures count == RejectedFixedBodyLength(headers)
    ensures forall n: nat :: count == Some(n) <==> !Coded(headers) && LengthIs(headers, n) && n <= 1048576
  {
    FixedLengths(headers);
    hide Coded, LengthIs, NoField;
    var lengths := [];
    for i := 0 to |headers|
      invariant lengths == Values(headers[..i], "content-length")
      invariant !Has(headers[..i], "transfer-encoding")
      invariant !Has(headers[..i], "content-encoding")
      invariant !Has(headers[..i], "trailer")
    {
      var name := Lower(headers[i].name);
      assert headers[..i + 1][..i] == headers[..i];
      if name == "transfer-encoding" || name == "content-encoding" || name == "trailer" {
        ValuesGrow(headers, i + 1, name);
        return None;
      }
      if name == "content-length" {
        lengths := lengths + [headers[i].value];
      }
    }
    assert headers[..|headers|] == headers;
    if |lengths| != 1 || !Canonical(lengths[0]) || |lengths[0]| > 8 {
      return None;
    }
    return if Number(lengths[0]) <= MAX_DISCARD then Some(Number(lengths[0])) else None;
  }

  /** The same scan for ordinary requests. */
  method ScanGeneric(headers: seq<Header>) returns (count: Option<nat>)
    ensures count == GenericFixedBodyLength(headers)
    ensures forall n: nat :: count == Some(n) <==> NoField(headers, "transfer-encoding") && LengthIs(headers, n)
  {
    FixedLengths(headers);
    hide Coded, LengthIs, NoField;
    var lengths := [];
    for i := 0 to |headers|
      invariant lengths == Values(headers[..i], "content-length")
      invariant !Has(headers[..i], "transfer-encoding")
    {
      var name := Lower(headers[i].name);
      assert headers[..i + 1][..i] == headers[..i];
      if name == "transfer-encoding" {
        ValuesGrow(headers, i + 1, name);
        return None;
      }
      if name == "content-length" {
        lengths := lengths + [headers[i].value];
      }
    }
    assert headers[..|headers|] == headers;
    return if |lengths| == 1 && Canonical(lengths[0]) then Some(Number(lengths[0])) else None;
  }

  /**
   The readers never disagree on a length: what the strict one accepts with a body, the ordinary one accepts with the
   same length, and the discarding one too when it is small enough; and what the discarding one accepts, the
   ordinary one accepts. The accepted length lies within the policy and is forwarded in the very text it came in.
   */
  lemma ReadersAgree(headers: seq<Header>, policy: Policy)
    ensures RejectedFixedBodyLength(headers).Some? ==>
      GenericFixedBodyLength(headers) == RejectedFixedBodyLength(headers)
    ensures policy.media.Some? && SourceBodyLength(headers, policy).Accepted? ==>
      var count := SourceBodyLength(headers, policy).count;
      && 0 < count <= policy.maxBytes
      && GenericFixedBodyLength(headers) == Some(count)
      && RejectedFixedBodyLength(headers) == (if count <= MAX_DISCARD then Some(count) else None)
      && Values(headers, "content-length") == [Decimal(count)]
    ensures policy.media.None? && SourceBodyLength(headers, policy).Accepted? ==>
      SourceBodyLength(headers, policy).count == 0
  {
    var lengths := Values(headers, "content-length");
    if |lengths| == 1 && Positive(lengths[0]) {
      DecimalOfNumber(lengths[0]);
    }
  }
}
