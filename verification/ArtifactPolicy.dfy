/** The AIPACK policy bundle: four ordered stages over an artifact's kind, family, predicates and risk band. */
module ArtifactPolicy {

  /** An absent list and an empty one mean different things for artifact types. */
  datatype KindList = Absent | Listed(kinds: seq<string>)

  datatype Policy = NoPolicy | Policy(
    forbiddenFamilies: seq<string>, allowedFamilies: seq<string>, forbiddenTypes: seq<string>, allowedTypes: KindList,
    requiredPredicates: seq<string>, maxRiskBand: string)

  datatype Decision = Allowed | Denied(code: string, reason: string)

  const FAMILY_DENIED := "AIPACK-PROFILE-001"
  const PREDICATE_DENIED := "AIPACK-PROFILE-002"
  const BAND_DENIED := "AIPACK-RV-002"
  const KIND_UNKNOWN := "AIPACK-KIND-000"

  datatype Family = Known(name: string) | Unknown

  function FamilyForKind(kind: string): Family {
    if kind == "BaseModel" || kind == "LoRA" || kind == "FineTune" then Known("model")
    else if kind == "Skill" || kind == "Tool" || kind == "MCPServer" || kind == "Workflow" then Known("capability")
    else if kind == "PromptTemplate" || kind == "Guardrail" || kind == "PolicyBundle" then Known("control")
    else if kind == "RetrievalIndex" || kind == "Dataset" then Known("knowledge")
    else if kind == "Harness" || kind == "Eval" then Known("assurance")
    else if kind == "Agent" then Known("composite")
    else Unknown
  }

  /** Position of a band in the risk order; an unknown band has none. */
  function BandOrder(band: string): int {
    if band == "GREEN" then 0 else if band == "YELLOW" then 1 else if band == "ORANGE" then 2
        else if band == "RED" then 3 else -1
  }

  predicate ValidBand(band: string) {
    BandOrder(band) >= 0
  }

  predicate BandExceeds(actual: string, limit: string) {
    !ValidBand(actual) || !ValidBand(limit) || BandOrder(actual) > BandOrder(limit)
  }

  // ---- The stages ---------------------------------------------------------------------------------------------

  function FamilyStage(p: Policy, family: string): Decision
    requires p.Policy?
  {
    if family in p.forbiddenFamilies then Denied(FAMILY_DENIED, "family " + family + " is forbidden by policy")
    else if |p.allowedFamilies| > 0 && family !in p.allowedFamilies then
      Denied(FAMILY_DENIED, "family " + family + " is not in policy allowedFamilies")
    else Allowed
  }

  function KindStage(p: Policy, kind: string): Decision
    requires p.Policy?
  {
    if kind in p.forbiddenTypes then Denied(FAMILY_DENIED, "kind " + kind + " is forbidden by policy")
    else if p.allowedTypes.Listed? && kind !in p.allowedTypes.kinds then
      Denied(FAMILY_DENIED, "kind " + kind + " is not in policy allowedArtifactTypes")
    else Allowed
  }

  /** Reports the first required predicate that is absent. */
  function PredicateStage(required: seq<string>, present: seq<string>): Decision {
    if required == [] then Allowed
    else if required[0] !in present then Denied(PREDICATE_DENIED, "required predicate absent: " + required[0])
    else PredicateStage(required[1..], present)
  }

  function RiskStage(p: Policy, band: string): Decision
    requires p.Policy?
  {
    if p.maxRiskBand != "" && (!ValidBand(band) || !ValidBand(p.maxRiskBand) || BandExceeds(band, p.maxRiskBand)) then
      Denied(BAND_DENIED, "artifact risk band " + band + " exceeds policy maxRiskBand " + p.maxRiskBand)
    else Allowed
  }

  function Evaluate(p: Policy, kind: string, family: string, present: seq<string>, band: string): Decision {
    if p.NoPolicy? then Allowed
    else if FamilyStage(p, family).Denied? then FamilyStage(p, family)
    else if KindStage(p, kind).Denied? then KindStage(p, kind)
    else if PredicateStage(p.requiredPredicates, present).Denied? then PredicateStage(p.requiredPredicates, present)
    else RiskStage(p, band)
  }

  function EvaluateBundle(p: Policy, kind: string): Decision {
    if p.NoPolicy? then Allowed
    else
      match FamilyForKind(kind)
      case Unknown => Denied(KIND_UNKNOWN, "unknown artifact kind")
      case Known(family) => Evaluate(p, kind, family, [], "")
  }

  // ---- What acceptance means ---------------------------------------------------------------------------------------

  ghost predicate FamilyAdmitted(p: Policy, family: string)
    requires p.Policy?
  {
    family !in p.forbiddenFamilies && (p.allowedFamilies == [] || family in p.allowedFamilies)
  }

  ghost predicate KindAdmitted(p: Policy, kind: string)
    requires p.Policy?
  {
    kind !in p.forbiddenTypes && (p.allowedTypes.Absent? || kind in p.allowedTypes.kinds)
  }

  ghost predicate PredicatesPresent(required: seq<string>, present: seq<string>) {
    forall r :: r in required ==> r in present
  }

  ghost predicate RiskAdmitted(p: Policy, band: string)
    requires p.Policy?
  {
    p.maxRiskBand == "" || (0 <= BandOrder(band) <= BandOrder(p.maxRiskBand))
  }

  /**
   * The scan accepts when nothing required is absent; otherwise it names an absent predicate with all earlier ones
   * present.
   */
  lemma {:induction false} PredicateStageExact(required: seq<string>, present: seq<string>)
    ensures PredicateStage(required, present).Allowed? <==> PredicatesPresent(required, present)
    ensures !PredicatesPresent(required, present) ==>
              exists i :: 0 <= i < |required| && required[i] !in present && PredicatesPresent(required[..i], present)
                && PredicateStage(required, present) ==
                    Denied(PREDICATE_DENIED, "required predicate absent: " + required[i])
  {
    if required != [] {
      var rest := required[1..];
      assert required == [required[0]] + rest;
      PredicateStageExact(rest, present);
      if required[0] !in present {
        assert PredicatesPresent(required[..0], present);
      } else if !PredicatesPresent(rest, present) {
        var i :| 0 <= i < |rest| && rest[i] !in present && PredicatesPresent(rest[..i], present)
          && PredicateStage(rest, present) == Denied(PREDICATE_DENIED, "required predicate absent: " + rest[i]);
        assert required[..i + 1] == [required[0]] + rest[..i] && required[i + 1] == rest[i];
      }
    }
  }

  /** The verdict and its code, for every policy and artifact: codes follow the normative order of the stages. */
  lemma DecisionExact(p: Policy, kind: string, family: string, present: seq<string>, band: string)
    requires p.Policy?
    ensures var d := Evaluate(p, kind, family, present, band);
            if !FamilyAdmitted(p, family) || !KindAdmitted(p, kind) then d.Denied? && d.code == FAMILY_DENIED
            else if !PredicatesPresent(p.requiredPredicates, present) then d.Denied? && d.code == PREDICATE_DENIED
            else if !RiskAdmitted(p, band) then d.Denied? && d.code == BAND_DENIED
            else d.Allowed?
  {
    PredicateStageExact(p.requiredPredicates, present);
  }

  /**
   * The bundle check is the strictest artifact: it accepts exactly when no predicate list and no band would be denied.
   */
  lemma BundleAcceptsExactly(p: Policy, kind: string, family: string)
    requires FamilyForKind(kind) == Known(family)
    ensures EvaluateBundle(p, kind).Allowed? <==>
              forall present, band :: Evaluate(p, kind, family, present, band).Allowed?
  {
    hide FamilyForKind, Evaluate;
    if p.Policy? {
      assert EvaluateBundle(p, kind) == Evaluate(p, kind, family, [], "");
      if EvaluateBundle(p, kind).Allowed? {
        DecisionExact(p, kind, family, [], "");
        forall present, band ensures Evaluate(p, kind, family, present, band).Allowed? {
          DecisionExact(p, kind, family, present, band);
        }
      }
    } else {
      NoPolicyAllows(p, kind, family);
    }
  }

  lemma NoPolicyAllows(p: Policy, kind: string, family: string)
    requires p.NoPolicy?
    ensures forall present, band :: Evaluate(p, kind, family, present, band).Allowed?
  {
  }

  /** More evidence or less risk never turns an acceptance into a denial. */
  lemma EvaluationMonotone(p: Policy, kind: string, family: string, present: seq<string>, more: seq<string>,
      band: string, lower: string)
    requires Evaluate(p, kind, family, present, band).Allowed?
    requires (forall x :: x in present ==> x in more) && 0 <= BandOrder(lower)
        && (ValidBand(band) ==> BandOrder(lower) <= BandOrder(band))
    ensures Evaluate(p, kind, family, more, lower).Allowed?
  {
    if p.Policy? {
      DecisionExact(p, kind, family, present, band);
      DecisionExact(p, kind, family, more, lower);
    }
  }

  /**
   * Shortening an allow-list only tightens the policy, except that an emptied family list allows every family again.
   */
  lemma ShorterAllowLists(p: Policy, families: seq<string>, kinds: seq<string>, kind: string, family: string,
      present: seq<string>, band: string)
    requires p.Policy? && p.allowedTypes.Listed?
    requires (forall f :: f in families ==> f in p.allowedFamilies)
        && (forall k :: k in kinds ==> k in p.allowedTypes.kinds)
    requires var shorter := p.(allowedFamilies := families, allowedTypes := Listed(kinds));
             Evaluate(shorter, kind, family, present, band).Allowed?
    ensures Evaluate(p, kind, family, present, band).Allowed? <==>
        families != [] || p.allowedFamilies == []
        || family in p.allowedFamilies
  {
    DecisionExact(p.(allowedFamilies := families, allowedTypes := Listed(kinds)), kind, family, present, band);
    DecisionExact(p, kind, family, present, band);
  }

  // ---- The tables by name -----------------------------------------------------------------------------------------

  /** The four bands in order of risk; no other name is a band. */
  lemma BandsByName(band: string)
    ensures BandOrder("GREEN") < BandOrder("YELLOW") < BandOrder("ORANGE") < BandOrder("RED")
    ensures ValidBand(band) <==> band == "GREEN" || band == "YELLOW" || band == "ORANGE" || band == "RED"
  {
    BandNamesDiffer();
  }

  lemma BandNamesDiffer()
    ensures "GREEN" != "YELLOW" && "GREEN" != "ORANGE" && "GREEN" != "RED"
    ensures "YELLOW" != "ORANGE" && "YELLOW" != "RED" && "ORANGE" != "RED"
  {
    assert "GREEN"[0] == 'G' && "YELLOW"[0] == 'Y' && "ORANGE"[0] == 'O' && "RED"[0] == 'R';
  }

  /** Which bands a limit admits, name by name; a limit that is no band admits none. */
  lemma RiskByName(p: Policy, band: string)
    requires p.Policy? && p.maxRiskBand != ""
    ensures RiskStage(p, band).Allowed? <==>
            || (p.maxRiskBand == "GREEN" && band == "GREEN")
            || (p.maxRiskBand == "YELLOW" && (band == "GREEN" || band == "YELLOW"))
            || (p.maxRiskBand == "ORANGE" && (band == "GREEN" || band == "YELLOW" || band == "ORANGE"))
            || (p.maxRiskBand == "RED" && (band == "GREEN" || band == "YELLOW" || band == "ORANGE" || band == "RED"))
  {
    BandNamesDiffer();
  }

  const MODEL_KINDS := {"BaseModel", "LoRA", "FineTune"}
  const CAPABILITY_KINDS := {"Skill", "Tool", "MCPServer", "Workflow"}
  const CONTROL_KINDS := {"PromptTemplate", "Guardrail", "PolicyBundle"}
  const KNOWLEDGE_KINDS := {"RetrievalIndex", "Dataset"}
  const ASSURANCE_KINDS := {"Harness", "Eval"}

  /** The family of every kind, and no family for any other name; an unknown kind is refused by every policy. */
  lemma FamilyByName(p: Policy, kind: string)
    ensures kind in MODEL_KINDS ==> FamilyForKind(kind) == Known("model")
    ensures kind in CAPABILITY_KINDS ==> FamilyForKind(kind) == Known("capability")
    ensures kind in CONTROL_KINDS ==> FamilyForKind(kind) == Known("control")
    ensures kind in KNOWLEDGE_KINDS ==> FamilyForKind(kind) == Known("knowledge")
    ensures kind in ASSURANCE_KINDS ==> FamilyForKind(kind) == Known("assurance")
    ensures kind == "Agent" ==> FamilyForKind(kind) == Known("composite")
    ensures FamilyForKind(kind).Unknown? <==>
            && kind !in MODEL_KINDS && kind !in CAPABILITY_KINDS && kind !in CONTROL_KINDS
            && kind !in KNOWLEDGE_KINDS && kind !in ASSURANCE_KINDS && kind != "Agent"
    ensures p.Policy? && FamilyForKind(kind).Unknown? ==>
        EvaluateBundle(p, kind) == Denied(KIND_UNKNOWN, "unknown artifact kind")
  {
  }
}
