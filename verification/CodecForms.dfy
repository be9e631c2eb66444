/** Exactly which texts are read as semantic candidates, and as what: the reading of texts that nobody need have
    written with the encoder. */
module CodecForms {
  import opened Common
  import opened Decimal
  import opened Sequences
  import opened Text
  import opened TemporalCodec

  // ----- splitting and joining -----

  ghost predicate NoneHolds(parts: seq<string>, c: char) { forall i :: 0 <= i < |parts| ==> c !in parts[i] }

  /** Joining undoes splitting, and no part holds the separator. */
  lemma {:induction false} JoinUndoesSplit(s: string, c: char)
    ensures Join(Split(s, c), c) == s && NoneHolds(Split(s, c), c)
  {
    if |s| > 0 {
      var rest := Split(s[1..], c);
      JoinUndoesSplit(s[1..], c);
      if s[0] == c {
        assert ([""] + rest)[1..] == rest;
      } else {
        var first := [s[0]] + rest[0];
        assert ([first] + rest[1..])[1..] == rest[1..];
      }
    }
  }

  /** A text splits into the given parts exactly when it is their join and none of them holds the separator. */
  lemma {:induction false} SplitsExactly(s: string, c: char, parts: seq<string>)
    ensures Split(s, c) == parts <==> |parts| > 0 && NoneHolds(parts, c) && s == Join(parts, c)
  {
    JoinUndoesSplit(s, c);
    if |parts| > 0 && NoneHolds(parts, c) { SplitUndoesJoin(parts, c); }
  }

  lemma {:induction false} JoinSnoc(parts: seq<string>, part: string, c: char)
    requires |parts| > 0
    ensures Join(parts + [part], c) == Join(parts, c) + [c] + part
  {
    if |parts| > 1 {
      JoinSnoc(parts[1..], part, c);
      assert (parts + [part])[1..] == parts[1..] + [part];
    } else {
      assert (parts + [part])[1..] == [part];
    }
  }

  // ----- numbers and names -----

  /** Decimal digits of the number, with leading zeros or not. */
  predicate Digits(digits: string, n: nat) { |digits| > 0 && AllDigits(digits) && NatValue(digits) == n }

  /** A number is read exactly from its digits, a minus or plus sign in front of them or none. */
  lemma {:induction false} NumbersExactly(s: string, i: i64)
    ensures ParseI64(s) == Some(i) <==>
            var n: int := i;
            (n >= 0 && Digits(s, n))
            || (|s| > 0 && s[0] == '+' && n >= 0 && Digits(s[1..], n))
            || (|s| > 0 && s[0] == '-' && n <= 0 && Digits(s[1..], -n))
  {
    if |s| > 0 && (s[0] == '-' || s[0] == '+') { assert !AllDigits(s); }
  }

  /** Only names are read as names. */
  lemma {:induction false} NamesExactly(s: string, t: Tier, d: Delegation, l: TrustLevel)
    ensures ParseTier(s) == Some(t) <==> s == TierName(t)
    ensures ParseDelegation(s) == Some(d) <==> s == DelegationName(d)
    ensures ParseTrust(s) == Some(l) <==> s == TrustName(l)
  {
    NamesReadBack(t, d, l);
  }

  // ----- evidence -----

  /** The item is a reference, a time and a flag; the reference may hold anything but a comma. */
  ghost predicate ItemReads(item: string, e: Evidence) {
    exists reference, at, flag ::
      item == reference + ['@'] + at + ['@'] + flag && '@' !in at && '@' !in flag && ItemHolds(reference, at, flag, e)
  }

  ghost predicate ItemHolds(reference: string, at: string, flag: string, e: Evidence) {
    && e.schemaVersion == 1 && e.reference == Unescape(reference) && ParseI64(at) == Some(e.observedAt)
    && (e.verified <==> flag == "1")
  }

  /** An empty text is no evidence; any other is its items, joined by commas. */
  ghost predicate EvidenceReads(text: string, list: seq<Evidence>) {
    if text == "" then list == []
    else exists items ::
           |items| == |list| > 0 && NoneHolds(items, ',') && text == Join(items, ',') && AllRead(items, list)
  }

  ghost predicate AllRead(items: seq<string>, list: seq<Evidence>)
    requires |items| == |list|
  {
    forall i :: 0 <= i < |items| ==> ItemReads(items[i], list[i])
  }

  lemma {:induction false} ThreeFields(reference: string, at: string, flag: string)
    requires '@' !in at && '@' !in flag
    ensures Split(reference + ['@'] + at + ['@'] + flag, '@') == Split(reference, '@') + [at] + [flag]
  {
    var parts := Split(reference, '@');
    JoinUndoesSplit(reference, '@');
    JoinSnoc(parts, at, '@');
    JoinSnoc(parts + [at], flag, '@');
    SplitUndoesJoin(parts + [at] + [flag], '@');
  }

  lemma {:induction false} LastTwoFields(item: string)
    requires |Split(item, '@')| >= 3
    ensures var parts := Split(item, '@');
            var n := |parts|;
            && item == Join(parts[..n - 2], '@') + ['@'] + parts[n - 2] + ['@'] + parts[n - 1]
            && '@' !in parts[n - 2] && '@' !in parts[n - 1]
  {
    var parts := Split(item, '@');
    var n := |parts|;
    JoinUndoesSplit(item, '@');
    assert parts == parts[..n - 2] + [parts[n - 2]] + [parts[n - 1]];
    JoinSnoc(parts[..n - 2], parts[n - 2], '@');
    JoinSnoc(parts[..n - 2] + [parts[n - 2]], parts[n - 1], '@');
  }

  lemma {:induction false} ItemReadsAs(reference: string, at: string, flag: string, e: Evidence)
    requires '@' !in at && '@' !in flag
    ensures DecodeOne(reference + ['@'] + at + ['@'] + flag) == Some(e) <==> ItemHolds(reference, at, flag, e)
  {
    var item, before := reference + ['@'] + at + ['@'] + flag, Split(reference, '@');
    var parts := before + [at] + [flag];
    ThreeFields(reference, at, flag);
    JoinUndoesSplit(reference, '@');
    assert Split(item, '@') == parts && parts[..|parts| - 2] == before;
    assert parts[|parts| - 2] == at && parts[|parts| - 1] == flag;
  }

  lemma {:induction false} ItemsExactly(item: string, e: Evidence)
    ensures DecodeOne(item) == Some(e) <==> ItemReads(item, e)
  {
    if DecodeOne(item) == Some(e) {
      var parts := Split(item, '@');
      var n := |parts|;
      LastTwoFields(item);
      ItemReadsAs(Join(parts[..n - 2], '@'), parts[n - 2], parts[n - 1], e);
    }
    if ItemReads(item, e) {
      var reference, at, flag :| item == reference + ['@'] + at + ['@'] + flag && '@' !in at && '@' !in flag
                                 && ItemHolds(reference, at, flag, e);
      ItemReadsAs(reference, at, flag, e);
    }
  }

  lemma {:induction false} AllItemsExactly(items: seq<string>, list: seq<Evidence>)
    ensures DecodeAll(items) == Some(list) <==> |items| == |list| && AllRead(items, list)
  {
    if |items| > 0 && |list| > 0 {
      AllItemsExactly(items[1..], list[1..]);
      ItemsExactly(items[0], list[0]);
      assert list == [list[0]] + list[1..];
      if |items| == |list| { AllReadSplit(items, list); }
    }
  }

  lemma {:induction false} AllReadSplit(items: seq<string>, list: seq<Evidence>)
    requires |items| == |list| > 0
    ensures AllRead(items, list) <==> ItemReads(items[0], list[0]) && AllRead(items[1..], list[1..])
  {
    assert forall i :: 0 <= i < |items[1..]| ==> items[1..][i] == items[i + 1] && list[1..][i] == list[i + 1];
    assert forall i :: 1 <= i < |items| ==> items[i] == items[1..][i - 1] && list[i] == list[1..][i - 1];
  }

  /** A text is read as evidence exactly in this way. */
  lemma {:induction false} EvidenceExactly(text: string, list: seq<Evidence>)
    ensures DecodeEvidence(text) == Some(list) <==> EvidenceReads(text, list)
  {
    var items := Split(text, ',');
    JoinUndoesSplit(text, ',');
    AllItemsExactly(items, list);
    if text != "" && EvidenceReads(text, list) {
      var others :| |others| == |list| > 0 && NoneHolds(others, ',') && text == Join(others, ',')
        && AllRead(others, list);
      SplitUndoesJoin(others, ',');
    }
  }

  // ----- records -----

  /** The text is the prefix and the fields, separated by bars. */
  ghost predicate HasFields(target: string, prefix: string, f: seq<string>) {
    |f| > 0 && NoneHolds(f, '|') && target == prefix + ['|'] + Join(f, '|')
  }

  lemma {:induction false} FieldsExactly(target: string, prefix: string, n: nat, f: seq<string>)
    ensures Fields(target, prefix, n) == Some(f) <==> HasFields(target, prefix, f) && |f| == n
  {
    var k := |prefix| + 1;
    assert prefix + "|" == prefix + ['|'];
    assert HasFields(target, prefix, f) ==> k <= |target| && target[..k] == prefix + ['|'];
    if k <= |target| && target[..k] == prefix + ['|'] {
      SplitsExactly(target[k..], '|', f);
      assert target == target[..k] + target[k..];
      if HasFields(target, prefix, f) { assert target[k..] == Join(f, '|'); }
    }
  }

  ghost predicate AgentSelfReads(f: seq<string>, a: AgentSelf)
    requires |f| == 8
  {
    && a.capability == Unescape(f[0]) && a.reliability == Unescape(f[1])
    && a.gap == (if Unescape(f[2]) == "" then None else Some(Unescape(f[2])))
    && a.scope == Unescape(f[3]) && a.confidence == f[4] && f[5] == TierName(a.stability)
    && EvidenceReads(f[6], a.evidence) && (a.initialProfile <==> f[7] == "1")
  }

  /** A text is read as an agent-self attribute exactly when it has its eight fields, each readable as what it is to
      say. */
  lemma {:induction false} AgentSelfExactly(target: string, a: AgentSelf)
    ensures ParseAgentSelf(a.envelope, target) == Some(a) <==>
            exists f :: HasFields(target, "agent-self", f) && |f| == 8 && AgentSelfReads(f, a)
  {
    forall f ensures Fields(target, "agent-self", 8) == Some(f) <==> HasFields(target, "agent-self", f) && |f| == 8 {
      FieldsExactly(target, "agent-self", 8, f);
    }
    if Fields(target, "agent-self", 8).Some? { AgentSelfFromExactly(Fields(target, "agent-self", 8).value, a); }
  }

  lemma {:induction false} AgentSelfFromExactly(f: seq<string>, a: AgentSelf)
    requires |f| == 8
    ensures AgentSelfFrom(a.envelope, f) == Some(a) <==> AgentSelfReads(f, a)
  {
    NamesExactly(f[5], a.stability, NoDelegation, Untrusted);
    EvidenceExactly(f[6], a.evidence);
  }

  ghost predicate PartnershipReads(f: seq<string>, p: Partnership)
    requires |f| == 6
  {
    && p.scope == Unescape(f[0]) && ComplementReads(f[1], p.complement)
    && f[2] == DelegationName(p.delegation) && ParseI64(f[3]) == Some(p.lastUpdatedAt)
    && f[4] == TierName(p.stability) && EvidenceReads(f[5], p.evidence)
  }

  /** An empty text is no complement; any other is its entries, joined by commas. */
  ghost predicate ComplementReads(text: string, list: seq<string>) {
    if text == "" then list == []
    else exists items :: |items| == |list| > 0 && NoneHolds(items, ',') && text == Join(items, ',')
                         && forall i :: 0 <= i < |items| ==> list[i] == Unescape(items[i])
  }

  lemma {:induction false} ComplementExactly(text: string, list: seq<string>)
    ensures (if text == "" then [] else Map(Split(text, ','), UnescapeMap())) == list <==> ComplementReads(text, list)
  {
    JoinUndoesSplit(text, ',');
    if text != "" && ComplementReads(text, list) {
      var items :| |items| == |list| > 0 && NoneHolds(items, ',') && text == Join(items, ',')
                   && forall i :: 0 <= i < |items| ==> list[i] == Unescape(items[i]);
      SplitUndoesJoin(items, ',');
      assert Map(items, UnescapeMap()) == list;
    }
  }

  lemma {:induction false} PartnershipFromExactly(f: seq<string>, p: Partnership)
    requires |f| == 6
    ensures PartnershipFrom(p.envelope, f) == Some(p) <==> PartnershipReads(f, p)
  {
    ComplementExactly(f[1], p.complement);
    NamesExactly(f[2], p.stability, p.delegation, Untrusted);
    NamesExactly(f[4], p.stability, p.delegation, Untrusted);
    EvidenceExactly(f[5], p.evidence);
  }

  /** The same for partnership states and their six fields. */
  lemma {:induction false} PartnershipExactly(target: string, p: Partnership)
    ensures ParsePartnership(p.envelope, target) == Some(p) <==>
            exists f :: HasFields(target, "partnership", f) && |f| == 6 && PartnershipReads(f, p)
  {
    forall f ensures Fields(target, "partnership", 6) == Some(f) <==> HasFields(target, "partnership", f) && |f| == 6 {
      FieldsExactly(target, "partnership", 6, f);
    }
    if Fields(target, "partnership", 6).Some? { PartnershipFromExactly(Fields(target, "partnership", 6).value, p); }
  }

  ghost predicate TrustReads(f: seq<string>, t: TrustProfile)
    requires |f| == 6
  {
    && t.scope == Unescape(f[0]) && f[1] == TrustName(t.level) && f[2] == DelegationName(t.delegation)
    && ParseI64(f[3]) == Some(t.lastUpdatedAt) && f[4] == TierName(t.stability) && EvidenceReads(f[5], t.evidence)
  }

  lemma {:induction false} TrustFromExactly(f: seq<string>, t: TrustProfile)
    requires |f| == 6
    ensures TrustFrom(t.envelope, f) == Some(t) <==> TrustReads(f, t)
  {
    NamesExactly(f[1], t.stability, t.delegation, t.level);
    NamesExactly(f[2], t.stability, t.delegation, t.level);
    NamesExactly(f[4], t.stability, t.delegation, t.level);
    EvidenceExactly(f[5], t.evidence);
  }

  /** The same for trust profiles. */
  lemma {:induction false} TrustExactly(target: string, t: TrustProfile)
    ensures ParseTrustProfile(t.envelope, target) == Some(t) <==>
            exists f :: HasFields(target, "trust", f) && |f| == 6 && TrustReads(f, t)
  {
    forall f ensures Fields(target, "trust", 6) == Some(f) <==> HasFields(target, "trust", f) && |f| == 6 {
      FieldsExactly(target, "trust", 6, f);
    }
    if Fields(target, "trust", 6).Some? { TrustFromExactly(Fields(target, "trust", 6).value, t); }
  }

  // ----- what is written -----

  /** One character of escaped text. */
  predicate Codes(c: char, text: string) {
    match c
    case '%' => text == "%25"
    case '|' => text == "%7C"
    case ',' => text == "%2C"
    case '@' => text == "%40"
    case _ => text == [c]
  }

  /** Escaping codes each character on its own, whatever surrounds it. */
  lemma {:induction false} EscapesEachExactly(a: string, c: char, b: string)
    ensures exists text :: Codes(c, text) && Escape(a + [c] + b) == Escape(a) + text + Escape(b)
    ensures Escape("") == ""
  {
    EscapeIsCoded(a + [c] + b, 4);
    EscapeIsCoded(a, 4);
    EscapeIsCoded(b, 4);
    EscapeIsCoded("", 4);
    CodedMiddle(a, c, b);
    CodesChar(c);
  }

  lemma {:induction false} CodesChar(c: char)
    ensures Codes(c, CodedChar(c, 4))
  {
  }

  lemma {:induction false} CodedMiddle(a: string, c: char, b: string)
    ensures Coded(a + [c] + b, 4) == Coded(a, 4) + CodedChar(c, 4) + Coded(b, 4)
  {
    CodedConcat(a + [c], b);
    CodedConcat(a, [c]);
    CodedOne(c);
  }

  lemma {:induction false} CodedOne(c: char)
    ensures Coded([c], 4) == CodedChar(c, 4)
  {
    assert [c][1..] == "";
  }

  lemma {:induction false} CodedConcat(a: string, b: string)
    ensures Coded(a + b, 4) == Coded(a, 4) + Coded(b, 4)
  {
    if |a| == 0 {
      assert a + b == b;
    } else {
      assert (a + b)[1..] == a[1..] + b;
      CodedConcat(a[1..], b);
    }
  }

  /** Digits without a leading zero. */
  predicate PlainDigits(digits: string, n: nat) { Digits(digits, n) && (digits[0] == '0' ==> digits == "0") }

  lemma {:induction false} NatTextIsPlain(n: nat)
    ensures PlainDigits(NatText(n), n) && (NatText(n)[0] == '0' <==> n == 0)
  {
    NatTextReadsBack(n);
    if n >= 10 {
      NatTextIsPlain(n / 10);
      assert NatText(n)[0] == NatText(n / 10)[0];
    } else {
      assert DigitValue('0') == 0;
    }
  }

  /** Numbers are written in plain digits, with a minus sign exactly when they are negative. */
  lemma {:induction false} NumbersAreWrittenExactly(i: i64)
    ensures var n: int := i;
            if n < 0 then |IntText(n)| > 0 && IntText(n)[0] == '-' && PlainDigits(IntText(n)[1..], -n)
            else PlainDigits(IntText(n), n)
  {
    var n: int := i;
    NatTextIsPlain(if n < 0 then -n else n);
  }

  /** Flags are written as digits. */
  lemma {:induction false} FlagsExactly(a: AgentSelf)
    ensures exists f :: HasFields(EncodeAgentSelf(a), "agent-self", f) && |f| == 8
                        && f[7] == (if a.initialProfile then "1" else "0") && f[4] == a.confidence
  {
    var f := AgentSelfFields(a);
    AgentSelfFieldsAvoidBar(a);
    assert (["agent-self"] + f)[1..] == f;
    assert HasFields(EncodeAgentSelf(a), "agent-self", f);
  }
}
