/** The text form of semantic candidates (agent-self attributes, partnership states, trust profiles)
    and the parsers that must undo it. */
module TemporalCodec {
  import opened Common
  import opened Decimal
  import opened Scopes
  import opened Sequences
  import opened Text

  // ----- records -----

  /** Decimal text of a confidence, as the standard formatter writes it. */
  predicate IsFloatText(s: string) {
    |s| > 0 && forall i :: 0 <= i < |s| ==> IsDigit(s[i]) || s[i] in {'-', '.', 'N', 'a', 'i', 'n', 'f'}
  }

  type FloatText = s: string | IsFloatText(s) witness "0"

  datatype Tier = Fixed | Constitutional | Stable | Working | Session | Ephemeral

  datatype Delegation = NoDelegation | ApprovalRequired | Bounded

  datatype TrustLevel = Untrusted | Observed | Established

  datatype Evidence = Evidence(schemaVersion: nat, reference: string, observedAt: i64, verified: bool)

  /** The parts of a record that the text does not carry. */
  datatype Envelope = Envelope(schemaVersion: nat, provenance: string)

  datatype AgentSelf = AgentSelf(
    envelope: Envelope,
    capability: string,
    reliability: string,
    gap: Option<string>,
    scope: string,
    confidence: FloatText,
    stability: Tier,
    evidence: seq<Evidence>,
    initialProfile: bool)

  datatype Partnership = Partnership(
    envelope: Envelope,
    scope: string,
    complement: seq<string>,
    delegation: Delegation,
    lastUpdatedAt: i64,
    stability: Tier,
    evidence: seq<Evidence>)

  datatype TrustProfile = TrustProfile(
    envelope: Envelope,
    scope: string,
    level: TrustLevel,
    delegation: Delegation,
    lastUpdatedAt: i64,
    stability: Tier,
    evidence: seq<Evidence>)

  // ----- names -----

  function TierName(t: Tier): string {
    match t
    case Fixed => "fixed"
    case Constitutional => "constitutional"
    case Stable => "stable"
    case Working => "working"
    case Session => "session"
    case Ephemeral => "ephemeral"
  }

  function ParseTier(s: string): Option<Tier> {
    if s == "fixed" then Some(Fixed)
    else if s == "constitutional" then Some(Constitutional)
    else if s == "stable" then Some(Stable)
    else if s == "working" then Some(Working)
    else if s == "session" then Some(Session)
    else if s == "ephemeral" then Some(Ephemeral)
    else None
  }

  function DelegationName(d: Delegation): string {
    match d
    case NoDelegation => "none"
    case ApprovalRequired => "approval-required"
    case Bounded => "bounded"
  }

  function ParseDelegation(s: string): Option<Delegation> {
    if s == "none" then Some(NoDelegation)
    else if s == "approval-required" then Some(ApprovalRequired)
    else if s == "bounded" then Some(Bounded)
    else None
  }

  function TrustName(t: TrustLevel): string {
    match t
    case Untrusted => "untrusted"
    case Observed => "observed"
    case Established => "established"
  }

  function ParseTrust(s: string): Option<TrustLevel> {
    if s == "untrusted" then Some(Untrusted)
    else if s == "observed" then Some(Observed)
    else if s == "established" then Some(Established)
    else None
  }

  function Flag(b: bool): string { if b then "1" else "0" }

  function Escape(s: string): string { EscapeTo(s, 4) }

  function Unescape(s: string): string { UnescapeFrom(s, 4) }

  // ----- evidence lists -----

  function EncodeOne(): Evidence -> string {
    (e: Evidence) => Join([Escape(e.reference), IntText(e.observedAt), Flag(e.verified)], '@')
  }

  function EncodeEvidence(list: seq<Evidence>): string { Join(Map(list, EncodeOne()), ',') }

  /** Splits off the last two `@` fields; what is left is the reference, whatever it holds. */
  function DecodeOne(item: string): Option<Evidence> {
    var parts := Split(item, '@');
    if |parts| < 3 then None
    else match ParseI64(parts[|parts| - 2])
      case None => None
      case Some(at) =>
        Some(Evidence(1, Unescape(Join(parts[..|parts| - 2], '@')), at, parts[|parts| - 1] == "1"))
  }

  function DecodeAll(items: seq<string>): Option<seq<Evidence>> {
    if |items| == 0 then Some([])
    else match DecodeOne(items[0])
      case None => None
      case Some(first) =>
        match DecodeAll(items[1..])
        case None => None
        case Some(rest) => Some([first] + rest)
  }

  function DecodeEvidence(value: string): Option<seq<Evidence>> {
    if value == "" then Some([]) else DecodeAll(Split(value, ','))
  }

  // ----- records to text and back -----

  function Fields(target: string, prefix: string, expected: nat): Option<seq<string>> {
    if !StartsWith(target, prefix + "|") then None
    else
      var fields := Split(target[|prefix| + 1..], '|');
      if |fields| == expected then Some(fields) else None
  }

  function AgentSelfFields(a: AgentSelf): seq<string> {
    [Escape(a.capability), Escape(a.reliability), Escape(if a.gap.Some? then a.gap.value else ""), Escape(a.scope),
     a.confidence, TierName(a.stability), EncodeEvidence(a.evidence), Flag(a.initialProfile)]
  }

  function EncodeAgentSelf(a: AgentSelf): string { Join(["agent-self"] + AgentSelfFields(a), '|') }

  function AgentSelfFrom(envelope: Envelope, f: seq<string>): Option<AgentSelf>
    requires |f| == 8
  {
    var gap := Unescape(f[2]);
    if !IsFloatText(f[4]) || ParseTier(f[5]).None? || DecodeEvidence(f[6]).None? then None
    else Some(AgentSelf(envelope, Unescape(f[0]), Unescape(f[1]), if gap == "" then None else Some(gap), Unescape(f[3]),
                        f[4], ParseTier(f[5]).value, DecodeEvidence(f[6]).value, f[7] == "1"))
  }

  function ParseAgentSelf(envelope: Envelope, target: string): Option<AgentSelf> {
    match Fields(target, "agent-self", 8)
    case None => None
    case Some(f) => AgentSelfFrom(envelope, f)
  }

  function EscapeMap(): string -> string { (s: string) => Escape(s) }

  function UnescapeMap(): string -> string { (s: string) => Unescape(s) }

  function PartnershipFields(p: Partnership): seq<string> {
    [Escape(p.scope), Join(Map(p.complement, EscapeMap()), ','), DelegationName(p.delegation),
     IntText(p.lastUpdatedAt), TierName(p.stability), EncodeEvidence(p.evidence)]
  }

  function EncodePartnership(p: Partnership): string { Join(["partnership"] + PartnershipFields(p), '|') }

  function PartnershipFrom(envelope: Envelope, f: seq<string>): Option<Partnership>
    requires |f| == 6
  {
    if ParseDelegation(f[2]).None? || ParseI64(f[3]).None? || ParseTier(f[4]).None? || DecodeEvidence(f[5]).None? then
      None
    else Some(Partnership(envelope, Unescape(f[0]), if f[1] == "" then [] else Map(Split(f[1], ','), UnescapeMap()),
                          ParseDelegation(f[2]).value, ParseI64(f[3]).value, ParseTier(f[4]).value,
                          DecodeEvidence(f[5]).value))
  }

  function ParsePartnership(envelope: Envelope, target: string): Option<Partnership> {
    match Fields(target, "partnership", 6)
    case None => None
    case Some(f) => PartnershipFrom(envelope, f)
  }

  function TrustFields(t: TrustProfile): seq<string> {
    [Escape(t.scope), TrustName(t.level), DelegationName(t.delegation),
     IntText(t.lastUpdatedAt), TierName(t.stability), EncodeEvidence(t.evidence)]
  }

  function EncodeTrust(t: TrustProfile): string { Join(["trust"] + TrustFields(t), '|') }

  function TrustFrom(envelope: Envelope, f: seq<string>): Option<TrustProfile>
    requires |f| == 6
  {
    if ParseTrust(f[1]).None? || ParseDelegation(f[2]).None? || ParseI64(f[3]).None? || ParseTier(f[4]).None?
       || DecodeEvidence(f[5]).None? then None
    else Some(TrustProfile(envelope, Unescape(f[0]), ParseTrust(f[1]).value, ParseDelegation(f[2]).value,
                           ParseI64(f[3]).value, ParseTier(f[4]).value, DecodeEvidence(f[5]).value))
  }

  function ParseTrustProfile(envelope: Envelope, target: string): Option<TrustProfile> {
    match Fields(target, "trust", 6)
    case None => None
    case Some(f) => TrustFrom(envelope, f)
  }

  // ----- what the text keeps -----

  function NormalOne(): Evidence -> Evidence { (e: Evidence) => e.(schemaVersion := 1) }

  /** Evidence comes back at schema version 1. */
  function NormalEvidence(list: seq<Evidence>): seq<Evidence> { Map(list, NormalOne()) }

  function NormalGap(gap: Option<string>): Option<string> { if gap == Some("") then None else gap }

  function NormalComplement(list: seq<string>): seq<string> { if list == [""] then [] else list }

  lemma {:induction false} IntTextAvoids(i: int, c: char)
    requires !IsDigit(c) && c != '-'
    ensures c !in IntText(i)
  {
  }

  lemma {:induction false} EscapeAvoids(s: string)
    ensures '|' !in Escape(s) && ',' !in Escape(s) && '@' !in Escape(s)
    ensures Unescape(Escape(s)) == s
  {
    EscapedHasNoSeparator(s, 4, 1);
    EscapedHasNoSeparator(s, 4, 2);
    EscapedHasNoSeparator(s, 4, 3);
    UnescapeUndoesEscape(s, 4);
  }

  lemma {:induction false} OneEvidenceReadsBack(e: Evidence)
    ensures DecodeOne(EncodeOne()(e)) == Some(NormalOne()(e))
    ensures ',' !in EncodeOne()(e) && '|' !in EncodeOne()(e) && EncodeOne()(e) != ""
  {
    var parts := [Escape(e.reference), IntText(e.observedAt), Flag(e.verified)];
    EscapeAvoids(e.reference);
    IntTextAvoids(e.observedAt, '@');
    IntTextAvoids(e.observedAt, ',');
    IntTextAvoids(e.observedAt, '|');
    SplitUndoesJoin(parts, '@');
    I64TextReadsBack(e.observedAt);
    assert parts[..|parts| - 2] == [Escape(e.reference)];
    JoinAvoids(parts, '@', ',');
    JoinAvoids(parts, '@', '|');
    assert |Join(parts, '@')| > 0;
  }

  lemma {:induction false} DecodeCons(items: seq<string>)
    requires |items| > 0 && DecodeOne(items[0]).Some? && DecodeAll(items[1..]).Some?
    ensures DecodeAll(items) == Some([DecodeOne(items[0]).value] + DecodeAll(items[1..]).value)
  {
  }

  lemma {:induction false} AllEvidenceReadsBack(list: seq<Evidence>)
    ensures DecodeAll(Map(list, EncodeOne())) == Some(NormalEvidence(list))
  {
    if |list| > 0 {
      var items := Map(list, EncodeOne());
      OneEvidenceReadsBack(list[0]);
      AllEvidenceReadsBack(list[1..]);
      assert items[1..] == Map(list[1..], EncodeOne()) && items[0] == EncodeOne()(list[0]);
      DecodeCons(items);
      assert NormalEvidence(list) == [NormalOne()(list[0])] + NormalEvidence(list[1..]);
    }
  }

  /** Evidence lists of any length and content are read back. */
  lemma {:induction false} EvidenceReadsBack(list: seq<Evidence>)
    ensures DecodeEvidence(EncodeEvidence(list)) == Some(NormalEvidence(list))
    ensures '|' !in EncodeEvidence(list)
  {
    var items := Map(list, EncodeOne());
    forall i | 0 <= i < |items| ensures ',' !in items[i] && '|' !in items[i] && items[i] != "" {
      OneEvidenceReadsBack(list[i]);
    }
    JoinAvoids(items, ',', '|');
    if |list| > 0 {
      AllEvidenceReadsBack(list);
      SplitUndoesJoin(items, ',');
      assert |Join(items, ',')| >= |items[0]|;
    }
  }

  lemma {:induction false} NamesReadBack(t: Tier, d: Delegation, l: TrustLevel)
    ensures ParseTier(TierName(t)) == Some(t) && '|' !in TierName(t)
    ensures ParseDelegation(DelegationName(d)) == Some(d) && '|' !in DelegationName(d)
    ensures ParseTrust(TrustName(l)) == Some(l) && '|' !in TrustName(l)
  {
  }

  /** Fields joined behind a prefix are found again, whatever the prefix. */
  lemma {:induction false} FieldsReadBack(prefix: string, fields: seq<string>)
    requires |fields| > 0 && forall i :: 0 <= i < |fields| ==> '|' !in fields[i]
    ensures Fields(Join([prefix] + fields, '|'), prefix, |fields|) == Some(fields)
  {
    var target := Join([prefix] + fields, '|');
    assert ([prefix] + fields)[1..] == fields;
    assert target == prefix + ['|'] + Join(fields, '|');
    assert prefix + "|" == prefix + ['|'];
    assert target[..|prefix| + 1] == prefix + "|" && target[|prefix| + 1..] == Join(fields, '|');
    SplitUndoesJoin(fields, '|');
  }

  // ----- round trips -----

  function NormalAgentSelf(a: AgentSelf): AgentSelf {
    a.(gap := NormalGap(a.gap), evidence := NormalEvidence(a.evidence))
  }

  function NormalPartnership(p: Partnership): Partnership {
    p.(complement := NormalComplement(p.complement), evidence := NormalEvidence(p.evidence))
  }

  function NormalTrust(t: TrustProfile): TrustProfile { t.(evidence := NormalEvidence(t.evidence)) }

  lemma {:induction false} FloatTextAvoidsBar(s: FloatText)
    ensures '|' !in s
  {
  }

  lemma {:induction false} AgentSelfFieldsAvoidBar(a: AgentSelf)
    ensures forall i :: 0 <= i < |AgentSelfFields(a)| ==> '|' !in AgentSelfFields(a)[i]
  {
    EscapeAvoids(a.capability);
    EscapeAvoids(a.reliability);
    EscapeAvoids(if a.gap.Some? then a.gap.value else "");
    EscapeAvoids(a.scope);
    FloatTextAvoidsBar(a.confidence);
    NamesReadBack(a.stability, NoDelegation, Untrusted);
    EvidenceReadsBack(a.evidence);
  }

  lemma {:induction false} AgentSelfFieldsReadBack(a: AgentSelf)
    ensures AgentSelfFrom(a.envelope, AgentSelfFields(a)) == Some(NormalAgentSelf(a))
  {
    EscapeAvoids(a.capability);
    EscapeAvoids(a.reliability);
    EscapeAvoids(if a.gap.Some? then a.gap.value else "");
    EscapeAvoids(a.scope);
    NamesReadBack(a.stability, NoDelegation, Untrusted);
    EvidenceReadsBack(a.evidence);
  }

  /** Parsing undoes encoding for every agent-self attribute, up to the two normalisations. */
  lemma {:induction false} AgentSelfReadsBack(a: AgentSelf)
    ensures ParseAgentSelf(a.envelope, EncodeAgentSelf(a)) == Some(NormalAgentSelf(a))
  {
    AgentSelfFieldsReadBack(a);
    AgentSelfFieldsAvoidBar(a);
    FieldsReadBack("agent-self", AgentSelfFields(a));
  }

  lemma {:induction false} ComplementReadsBack(list: seq<string>)
    ensures var text := Join(Map(list, EscapeMap()), ',');
            && '|' !in text
            && (if text == "" then [] else Map(Split(text, ','), UnescapeMap())) == NormalComplement(list)
  {
    var items := Map(list, EscapeMap());
    forall i | 0 <= i < |items| ensures ',' !in items[i] && '|' !in items[i] && Unescape(items[i]) == list[i] {
      EscapeAvoids(list[i]);
    }
    JoinAvoids(items, ',', '|');
    if |list| > 0 {
      SplitUndoesJoin(items, ',');
      assert Map(items, UnescapeMap()) == list;
      if |list| == 1 { EscapedEmptyOnly(list[0]); }
    }
  }

  lemma {:induction false} EscapedEmptyOnly(s: string)
    ensures Escape(s) == "" <==> s == ""
  {
    EscapeIsCoded(s, 4);
  }

  lemma {:induction false} PartnershipFieldsReadBack(p: Partnership)
    ensures PartnershipFrom(p.envelope, PartnershipFields(p)) == Some(NormalPartnership(p))
    ensures forall i :: 0 <= i < |PartnershipFields(p)| ==> '|' !in PartnershipFields(p)[i]
  {
    EscapeAvoids(p.scope);
    ComplementReadsBack(p.complement);
    NamesReadBack(p.stability, p.delegation, Untrusted);
    IntTextAvoids(p.lastUpdatedAt, '|');
    I64TextReadsBack(p.lastUpdatedAt);
    EvidenceReadsBack(p.evidence);
  }

  /** The same for partnership states. */
  lemma {:induction false} PartnershipReadsBack(p: Partnership)
    ensures ParsePartnership(p.envelope, EncodePartnership(p)) == Some(NormalPartnership(p))
  {
    PartnershipFieldsReadBack(p);
    FieldsReadBack("partnership", PartnershipFields(p));
  }

  lemma {:induction false} TrustFieldsReadBack(t: TrustProfile)
    ensures TrustFrom(t.envelope, TrustFields(t)) == Some(NormalTrust(t))
    ensures forall i :: 0 <= i < |TrustFields(t)| ==> '|' !in TrustFields(t)[i]
  {
    EscapeAvoids(t.scope);
    NamesReadBack(t.stability, t.delegation, t.level);
    IntTextAvoids(t.lastUpdatedAt, '|');
    I64TextReadsBack(t.lastUpdatedAt);
    EvidenceReadsBack(t.evidence);
  }

  /** The same for trust profiles. */
  lemma {:induction false} TrustReadsBack(t: TrustProfile)
    ensures ParseTrustProfile(t.envelope, EncodeTrust(t)) == Some(NormalTrust(t))
  {
    TrustFieldsReadBack(t);
    FieldsReadBack("trust", TrustFields(t));
  }

  predicate CurrentEvidence(list: seq<Evidence>) {
    forall i :: 0 <= i < |list| ==> list[i].schemaVersion == 1
  }

  lemma {:induction false} NormalEvidenceExactly(list: seq<Evidence>)
    ensures NormalEvidence(list) == list <==> CurrentEvidence(list)
  {
    if NormalEvidence(list) == list {
      forall i | 0 <= i < |list| ensures list[i].schemaVersion == 1 {
        assert NormalEvidence(list)[i] == list[i];
      }
    }
  }

  /** Exactly which records come back unchanged: evidence at the current schema version, no gap that
      is present but empty, and no complement made of one empty entry. */
  lemma {:induction false} RecordsSurviveExactly(a: AgentSelf, p: Partnership, t: TrustProfile)
    ensures ParseAgentSelf(a.envelope, EncodeAgentSelf(a)) == Some(a) <==>
            a.gap != Some("") && CurrentEvidence(a.evidence)
    ensures ParsePartnership(p.envelope, EncodePartnership(p)) == Some(p) <==>
            p.complement != [""] && CurrentEvidence(p.evidence)
    ensures ParseTrustProfile(t.envelope, EncodeTrust(t)) == Some(t) <==> CurrentEvidence(t.evidence)
  {
    AgentSelfReadsBack(a);
    PartnershipReadsBack(p);
    TrustReadsBack(t);
    NormalEvidenceExactly(a.evidence);
    NormalEvidenceExactly(p.evidence);
    NormalEvidenceExactly(t.evidence);
  }

  lemma {:induction false} PrefixOfJoin(prefix: string, fields: seq<string>)
    requires |fields| > 0
    ensures StartsWith(Join([prefix] + fields, '|'), prefix + "|")
  {
    assert ([prefix] + fields)[1..] == fields;
    assert Join([prefix] + fields, '|')[..|prefix| + 1] == prefix + "|";
  }

  /** One kind of record is never read as another. */
  lemma {:induction false} KindsDoNotMix(a: AgentSelf, p: Partnership, t: TrustProfile, e: Envelope)
    ensures ParsePartnership(e, EncodeAgentSelf(a)) == None && ParseTrustProfile(e, EncodeAgentSelf(a)) == None
    ensures ParseAgentSelf(e, EncodePartnership(p)) == None && ParseTrustProfile(e, EncodePartnership(p)) == None
    ensures ParseAgentSelf(e, EncodeTrust(t)) == None && ParsePartnership(e, EncodeTrust(t)) == None
  {
    PrefixOfJoin("agent-self", AgentSelfFields(a));
    PrefixOfJoin("partnership", PartnershipFields(p));
    PrefixOfJoin("trust", TrustFields(t));
    FirstCharDecides(EncodeAgentSelf(a), "agent-self|", "partnership|");
    FirstCharDecides(EncodeAgentSelf(a), "agent-self|", "trust|");
    FirstCharDecides(EncodePartnership(p), "partnership|", "agent-self|");
    FirstCharDecides(EncodePartnership(p), "partnership|", "trust|");
    FirstCharDecides(EncodeTrust(t), "trust|", "agent-self|");
    FirstCharDecides(EncodeTrust(t), "trust|", "partnership|");
  }

  lemma {:induction false} FirstCharDecides(s: string, prefix: string, other: string)
    requires StartsWith(s, prefix) && |prefix| > 0 && |other| > 0 && prefix[0] != other[0]
    ensures !StartsWith(s, other)
  {
    assert s[0] == prefix[0] by { assert s[..|prefix|][0] == prefix[0]; }
  }
}
