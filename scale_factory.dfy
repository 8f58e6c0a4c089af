/**
 * Recognising a Bluetooth scale from its advertised name: the name is lower
 * cased and tried against groups of prefixes and substrings, one group per
 * scale family, in a fixed order; the first group that matches decides.
 */
module ScaleFactory {
  import opened Wrappers
  import opened Text

  /** `scale_type_t`, in declaration order (UNKNOWN is 0). */
  datatype ScaleType = Unknown | Acaia | Felicita | Decent | Timemore | Hiroia | Bookoo | GenericWss

  function Code(t: ScaleType): (r: nat)
    ensures r <= 7 && (r == 0 <==> t == Unknown)
  {
    match t
    case Unknown => 0
    case Acaia => 1
    case Felicita => 2
    case Decent => 3
    case Timemore => 4
    case Hiroia => 5
    case Bookoo => 6
    case GenericWss => 7
  }

  /**
   * `detectScaleType`: a missing or empty name is UNKNOWN; otherwise the
   * lower-cased name is tested group by group.
   */
  function DetectScaleType(name: Option<string>): ScaleType {
    if name.None? || |name.value| == 0 then Unknown else Classify(Lower(name.value))
  }

  /** The rule groups, in order, applied to a lower-cased name. */
  function Classify(n: string): ScaleType {
    if StartsWith(n, "acaia") || StartsWith(n, "lunar") || StartsWith(n, "pearl")
       || StartsWith(n, "pyxis") || StartsWith(n, "cinco") || StartsWith(n, "orion") then Acaia
    else if StartsWith(n, "bookoo") || StartsWith(n, "themis") || Contains(n, "themis") then Bookoo
    else if StartsWith(n, "felicita") || StartsWith(n, "arc") || StartsWith(n, "parallel")
       || Contains(n, "incline") then Felicita
    else if StartsWith(n, "decent") || StartsWith(n, "de1") || Contains(n, "decent scale") then Decent
    else if StartsWith(n, "timemore") || Contains(n, "black mirror") || Contains(n, "basic") then Timemore
    else if StartsWith(n, "hiroia") || StartsWith(n, "jimmy") then Hiroia
    else if StartsWith(n, "skale") then Felicita
    else if StartsWith(n, "brewista") then GenericWss
    else Unknown
  }

  /** `getScaleTypeName`, over the raw enum value: every value has a name. */
  function ScaleTypeName(code: int): string {
    match code
    case 1 => "Acaia"
    case 2 => "Felicita"
    case 3 => "Decent"
    case 4 => "Timemore"
    case 5 => "Hiroia"
    case 6 => "Bookoo"
    case 7 => "Generic"
    case _ => "Unknown"
  }

  // ---------------------------------------------------------------------------
  // The rule table: the same groups written as data, tried in order
  // ---------------------------------------------------------------------------

  /** One group of rules: names starting with one of `prefixes` or containing one of `infixes`. */
  datatype Rule = Rule(result: ScaleType, prefixes: seq<string>, infixes: seq<string>)

  const RULES: seq<Rule> := [
    Rule(Acaia, ["acaia", "lunar", "pearl", "pyxis", "cinco", "orion"], []),
    Rule(Bookoo, ["bookoo", "themis"], ["themis"]),
    Rule(Felicita, ["felicita", "arc", "parallel"], ["incline"]),
    Rule(Decent, ["decent", "de1"], ["decent scale"]),
    Rule(Timemore, ["timemore"], ["black mirror", "basic"]),
    Rule(Hiroia, ["hiroia", "jimmy"], []),
    Rule(Felicita, ["skale"], []),
    Rule(GenericWss, ["brewista"], [])
  ]

  predicate Matches(n: string, rule: Rule) {
    (exists p :: p in rule.prefixes && StartsWith(n, p))
    || (exists p :: p in rule.infixes && Contains(n, p))
  }

  /** The result of the first rule that matches, or UNKNOWN when none does. */
  function FirstMatch(n: string, rules: seq<Rule>): (r: ScaleType)
    ensures r != Unknown ==> exists i :: 0 <= i < |rules| && Matches(n, rules[i]) && rules[i].result == r
  {
    if |rules| == 0 then Unknown
    else if Matches(n, rules[0]) then rules[0].result
    else FirstMatch(n, rules[1..])
  }

  // Each entry of the rule table tests what the corresponding group of `detectScaleType` tests.

  lemma AcaiaRule(n: string)
    ensures Matches(n, RULES[0]) <==> (StartsWith(n, "acaia") || StartsWith(n, "lunar")
      || StartsWith(n, "pearl") || StartsWith(n, "pyxis") || StartsWith(n, "cinco") || StartsWith(n, "orion"))
  {
  }

  lemma BookooRule(n: string)
    ensures Matches(n, RULES[1]) <==> StartsWith(n, "bookoo") || StartsWith(n, "themis") || Contains(n, "themis")
  {
  }

  lemma FelicitaRule(n: string)
    ensures Matches(n, RULES[2]) <==> (StartsWith(n, "felicita") || StartsWith(n, "arc")
      || StartsWith(n, "parallel") || Contains(n, "incline"))
  {
  }

  lemma DecentRule(n: string)
    ensures Matches(n, RULES[3]) <==> StartsWith(n, "decent") || StartsWith(n, "de1") || Contains(n, "decent scale")
  {
  }

  lemma TimemoreRule(n: string)
    ensures Matches(n, RULES[4]) <==> StartsWith(n, "timemore") || Contains(n, "black mirror") || Contains(n, "basic")
  {
  }

  lemma HiroiaRule(n: string)
    ensures Matches(n, RULES[5]) <==> StartsWith(n, "hiroia") || StartsWith(n, "jimmy")
  {
  }

  lemma SkaleRule(n: string)
    ensures Matches(n, RULES[6]) <==> StartsWith(n, "skale")
  {
  }

  lemma BrewistaRule(n: string)
    ensures Matches(n, RULES[7]) <==> StartsWith(n, "brewista")
  {
  }

  /** The if-chain is the rule table tried in order, first match winning. */
  lemma ClassifyIsFirstMatch(n: string)
    ensures Classify(n) == FirstMatch(n, RULES)
  {
    AcaiaRule(n);
    BookooRule(n);
    FelicitaRule(n);
    DecentRule(n);
    TimemoreRule(n);
    HiroiaRule(n);
    SkaleRule(n);
    BrewistaRule(n);
    FirstRules(n);
    LaterRules(n);
  }

  /** The first four rules of the table, tried in order, before the rest. */
  lemma FirstRules(n: string)
    ensures FirstMatch(n, RULES) ==
      if Matches(n, RULES[0]) then Acaia
      else if Matches(n, RULES[1]) then Bookoo
      else if Matches(n, RULES[2]) then Felicita
      else if Matches(n, RULES[3]) then Decent
      else FirstMatch(n, RULES[4..])
  {
    var r := RULES;
    assert FirstMatch(n, r[3..]) == if Matches(n, r[3]) then Decent else FirstMatch(n, r[4..]);
    assert FirstMatch(n, r[2..]) == if Matches(n, r[2]) then Felicita else FirstMatch(n, r[3..]);
    assert FirstMatch(n, r[1..]) == if Matches(n, r[1]) then Bookoo else FirstMatch(n, r[2..]);
  }

  /** The last four rules of the table, tried in order, then no match. */
  lemma LaterRules(n: string)
    ensures FirstMatch(n, RULES[4..]) ==
      if Matches(n, RULES[4]) then Timemore
      else if Matches(n, RULES[5]) then Hiroia
      else if Matches(n, RULES[6]) then Felicita
      else if Matches(n, RULES[7]) then GenericWss
      else Unknown
  {
    var r := RULES;
    assert FirstMatch(n, r[7..]) == if Matches(n, r[7]) then GenericWss else FirstMatch(n, r[8..]);
    assert FirstMatch(n, r[6..]) == if Matches(n, r[6]) then Felicita else FirstMatch(n, r[7..]);
    assert FirstMatch(n, r[5..]) == if Matches(n, r[5]) then Hiroia else FirstMatch(n, r[6..]);
  }

  // ---------------------------------------------------------------------------
  // Properties
  // ---------------------------------------------------------------------------

  /** A missing or empty name is never recognised. */
  lemma EmptyIsUnknown(name: Option<string>)
    requires name.None? || name.value == []
    ensures DetectScaleType(name) == Unknown
  {
  }

  lemma {:induction false} LowerIdempotent(s: string)
    ensures Lower(Lower(s)) == Lower(s)
  {
    var l := Lower(s);
    forall k | 0 <= k < |s|
      ensures Lower(l)[k] == l[k]
    {
      assert l[k] == LowerChar(s[k]);
    }
  }

  /** Matching ignores case: a name and its lower-case form are recognised alike. */
  lemma CaseInsensitive(name: string)
    ensures DetectScaleType(Some(name)) == DetectScaleType(Some(Lower(name)))
  {
    LowerIdempotent(name);
  }

  /** A recognised name matched a rule whose result is the recognised type. */
  lemma RecognisedByRule(name: string)
    requires DetectScaleType(Some(name)) != Unknown
    ensures exists i :: 0 <= i < |RULES| && Matches(Lower(name), RULES[i]) && RULES[i].result == DetectScaleType(Some(name))
  {
    ClassifyIsFirstMatch(Lower(name));
  }

  /** An Acaia prefix wins over every later group, e.g. a "Lunar" whose name also says "basic". */
  lemma AcaiaFirst(rest: string)
    ensures DetectScaleType(Some("lunar" + rest)) == Acaia
  {
    var n := Lower("lunar" + rest);
    assert n[..5] == "lunar";
  }

  /** The first rule that matches decides: the rules before it do not match, and later ones are never consulted. */
  lemma {:induction false} FirstMatchWins(n: string, rules: seq<Rule>, k: nat)
    requires k < |rules| && Matches(n, rules[k])
    requires forall i :: 0 <= i < k ==> !Matches(n, rules[i])
    ensures FirstMatch(n, rules) == rules[k].result
  {
    if k > 0 {
      FirstMatchWins(n, rules[1..], k - 1);
    }
  }

  /** A name starting with "skale" that no earlier group claims is a Felicita scale. */
  lemma SkaleIsFelicita(n: string)
    requires StartsWith(n, "skale")
    requires forall i :: 0 <= i < 6 ==> !Matches(n, RULES[i])
    ensures Classify(n) == Felicita
  {
    ClassifyIsFirstMatch(n);
    SkaleRule(n);
    FirstMatchWins(n, RULES, 6);
  }

  /** A name starting with "brewista" that no earlier group claims is a generic weight-scale-service scale. */
  lemma BrewistaIsGeneric(n: string)
    requires StartsWith(n, "brewista")
    requires forall i :: 0 <= i < 7 ==> !Matches(n, RULES[i])
    ensures Classify(n) == GenericWss
  {
    ClassifyIsFirstMatch(n);
    BrewistaRule(n);
    FirstMatchWins(n, RULES, 7);
  }

  /** "basic" anywhere in the name, after no earlier group matched, is a Timemore. */
  lemma BasicAnywhere(before: string, after: string)
    requires DetectScaleType(Some(before + "basic" + after)) !in {Acaia, Bookoo, Felicita, Decent}
    ensures DetectScaleType(Some(before + "basic" + after)) == Timemore
  {
    LowerKeepsBasic(before, after);
  }

  /** Lower-casing keeps the word "basic" where it was. */
  lemma LowerKeepsBasic(before: string, after: string)
    ensures Contains(Lower(before + "basic" + after), "basic")
  {
    var s := before + "basic" + after;
    var n := Lower(s);
    assert n[|before|..][..5] == "basic" by {
      forall k | 0 <= k < 5
        ensures n[|before|..][..5][k] == "basic"[k]
      {
        assert s[|before| + k] == "basic"[k];
      }
    }
    assert StartsWith(n[|before|..], "basic");
    ContainsAt(n, |before|, "basic");
  }

  lemma {:induction false} ContainsAt(s: string, i: nat, p: string)
    requires i <= |s| && StartsWith(s[i..], p)
    ensures Contains(s, p)
  {
    if i > 0 {
      assert s[1..][i - 1..] == s[i..];
      ContainsAt(s[1..], i - 1, p);
    }
  }

  /** The seven scale families have seven different names, none of them "Unknown". */
  lemma NamesDistinct(a: ScaleType, b: ScaleType)
    requires a != Unknown && b != Unknown
    ensures ScaleTypeName(Code(a)) != "Unknown"
    ensures a != b ==> ScaleTypeName(Code(a)) != ScaleTypeName(Code(b))
  {
  }

  /** Every value outside the seven families, UNKNOWN included, is named "Unknown". */
  lemma OtherNamesUnknown(code: int)
    requires code < 1 || code > 7
    ensures ScaleTypeName(code) == "Unknown"
  {
  }
}
