/**
 * Validation of the body of a create request (`validateTaskCreation`) and the
 * middleware that decides, from the collected violations, whether the request
 * continues to its handler (`handleValidationErrors`).
 *
 * Each validator in the chain checks one field of the (trimmed) payload and
 * appends its violations to the request; the chain is a fold over the rules.
 */
module Validation {
  import opened Common
  import opened Errors

  /** Whitespace as JavaScript's `String.prototype.trim` removes it
      (WhiteSpace and LineTerminator of ECMAScript). */
  predicate IsWhitespace(c: char)
  {
    || c == '\t' || c == '\n' || c == '\U{000B}' || c == '\U{000C}' || c == '\r'
    || c == ' ' || c == '\U{00A0}' || c == '\U{1680}'
    || ('\U{2000}' <= c <= '\U{200A}')
    || c == '\U{2028}' || c == '\U{2029}' || c == '\U{202F}' || c == '\U{205F}'
    || c == '\U{3000}' || c == '\U{FEFF}'
  }

  predicate AllWhitespace(s: string)
  {
    forall i :: 0 <= i < |s| ==> IsWhitespace(s[i])
  }

  /** Drops the leading whitespace. */
  function TrimStart(s: string): (r: string)
    ensures |r| <= |s|
  {
    if s != [] && IsWhitespace(s[0]) then TrimStart(s[1..]) else s
  }

  /** What is left is a suffix that does not start with whitespace, and
      everything dropped was whitespace. */
  lemma {:induction false} TrimStartSpec(s: string)
    ensures var r := TrimStart(s);
      && r == s[|s| - |r|..]
      && (forall i :: 0 <= i < |s| - |r| ==> IsWhitespace(s[i]))
      && (r != [] ==> !IsWhitespace(r[0]))
  {
    if s != [] && IsWhitespace(s[0]) {
      TrimStartSpec(s[1..]);
    }
  }

  /** Drops the trailing whitespace. */
  function TrimEnd(s: string): (r: string)
    ensures |r| <= |s|
  {
    if s != [] && IsWhitespace(s[|s| - 1]) then TrimEnd(s[..|s| - 1]) else s
  }

  /** What is left is a prefix that does not end with whitespace, and
      everything dropped was whitespace. */
  lemma {:induction false} TrimEndSpec(s: string)
    ensures var r := TrimEnd(s);
      && r == s[..|r|]
      && (forall i :: |r| <= i < |s| ==> IsWhitespace(s[i]))
      && (r != [] ==> !IsWhitespace(r[|r| - 1]))
  {
    if s != [] && IsWhitespace(s[|s| - 1]) {
      TrimEndSpec(s[..|s| - 1]);
    }
  }

  /** `s.trim()`. */
  function Trim(s: string): (r: string)
    ensures |r| <= |s|
  {
    TrimEnd(TrimStart(s))
  }

  /** Trimming gives the empty string exactly for an all-whitespace string;
      otherwise the result neither starts nor ends with whitespace; a string
      without surrounding whitespace is left as it is. */
  lemma TrimSpec(s: string)
    ensures Trim(s) == [] <==> AllWhitespace(s)
    ensures Trim(s) != [] ==> !IsWhitespace(Trim(s)[0]) && !IsWhitespace(Trim(s)[|Trim(s)| - 1])
    ensures (s == [] || (!IsWhitespace(s[0]) && !IsWhitespace(s[|s| - 1]))) ==> Trim(s) == s
  {
    var head := TrimStart(s);
    var r := TrimEnd(head);
    TrimStartSpec(s);
    TrimEndSpec(head);
    assert |head| < |s| ==> IsWhitespace(s[0]);
    if head == [] {
      assert AllWhitespace(s);
    } else {
      assert |r| < |head| ==> IsWhitespace(head[|head| - 1]);
      assert !IsWhitespace(head[0]);
      assert s[|s| - |head|] == head[0];
    }
  }

  lemma TrimIdempotent(s: string)
    ensures Trim(Trim(s)) == Trim(s)
  {
    TrimSpec(s);
    TrimSpec(Trim(s));
  }

  const MaxTitleLength: nat := 200
  const MaxDescriptionLength: nat := 1000

  const TitleRequired: Violation := Violation("title", "Title is required")
  const TitleLength: Violation := Violation("title", "Title must be between 1 and 200 characters")
  const DescriptionTooLong: Violation := Violation("description", "Description cannot exceed 1000 characters")

  /** The body of a create request: each field may be absent. */
  datatype Payload = Payload(title: Option<string>, description: Option<string>)

  /** The validators of the create chain, in order. */
  datatype Rule = TitleRule | DescriptionRule

  const CreateRules: seq<Rule> := [TitleRule, DescriptionRule]

  /** What one validator appends to the request's errors. */
  function Check(rule: Rule, p: Payload): (r: seq<Violation>)
    ensures |r| <= 1
  {
    match rule
    case TitleRule =>
      if p.title.None? || Trim(p.title.value) == [] then [TitleRequired]
      else if |Trim(p.title.value)| > MaxTitleLength then [TitleLength]
      else []
    case DescriptionRule =>
      if p.description.Some? && |Trim(p.description.value)| > MaxDescriptionLength then [DescriptionTooLong]
      else []
  }

  /** Runs the validators in order and collects every violation. */
  function RunRules(rules: seq<Rule>, p: Payload): (r: seq<Violation>)
    ensures |r| <= |rules|
  {
    if rules == [] then []
    else RunRules(rules[..|rules| - 1], p) + Check(rules[|rules| - 1], p)
  }

  /** No violation is dropped (no short-circuit), and none is invented: the
      chain reports exactly what its validators report. */
  lemma {:induction false} RunRulesCollectsAll(rules: seq<Rule>, p: Payload, v: Violation)
    ensures v in RunRules(rules, p) <==> exists i :: 0 <= i < |rules| && v in Check(rules[i], p)
  {
    if rules != [] {
      var init, last := rules[..|rules| - 1], rules[|rules| - 1];
      RunRulesCollectsAll(init, p, v);
      assert RunRules(rules, p) == RunRules(init, p) + Check(last, p);
      assert v in RunRules(rules, p) <==> v in RunRules(init, p) || v in Check(last, p);
      assert forall i :: 0 <= i < |init| ==> init[i] == rules[i];
      if v in Check(last, p) {
        assert 0 <= |rules| - 1 < |rules| && v in Check(rules[|rules| - 1], p);
      }
    }
  }

  /** A create payload the validators accept, stated directly on the fields. */
  predicate AcceptableCreate(p: Payload)
  {
    && p.title.Some?
    && 1 <= |Trim(p.title.value)| <= MaxTitleLength
    && (p.description.Some? ==> |Trim(p.description.value)| <= MaxDescriptionLength)
  }

  /** The title is absent or made of whitespace only. */
  predicate TitleMissing(p: Payload)
  {
    p.title.None? || AllWhitespace(p.title.value)
  }

  /** `validateTaskCreation`: the violations of a create payload, title first. */
  function ValidateCreate(p: Payload): (r: seq<Violation>)
    ensures |r| <= 2
    ensures forall v :: v in r ==> v == TitleRequired || v == TitleLength || v == DescriptionTooLong
  {
    Check(TitleRule, p) + Check(DescriptionRule, p)
  }

  /** No violation exactly when the payload is acceptable. */
  lemma ValidateCreateEmptyIff(p: Payload)
    ensures ValidateCreate(p) == [] <==> AcceptableCreate(p)
  {
  }

  /** A missing or whitespace-only title is reported as required, not as too long. */
  lemma MissingTitleIsRequired(p: Payload)
    requires TitleMissing(p)
    ensures TitleRequired in ValidateCreate(p) && TitleLength !in ValidateCreate(p)
  {
    if p.title.Some? {
      TrimSpec(p.title.value);
    }
    assert Check(TitleRule, p) == [TitleRequired];
    assert |TitleRequired.message| != |TitleLength.message|;
  }

  /** A title over 200 characters after trimming is reported as too long. */
  lemma LongTrimmedTitleRejected(p: Payload)
    requires p.title.Some? && |Trim(p.title.value)| > MaxTitleLength
    ensures TitleLength in ValidateCreate(p) && TitleRequired !in ValidateCreate(p)
  {
  }

  /** Each title message is reported exactly in its own case, whatever the description. */
  lemma TitleReportedIff(p: Payload)
    ensures TitleRequired in ValidateCreate(p) <==> TitleMissing(p)
    ensures TitleLength in ValidateCreate(p) <==> p.title.Some? && |Trim(p.title.value)| > MaxTitleLength
  {
    if p.title.Some? {
      TrimSpec(p.title.value);
    }
    assert |TitleRequired.message| != |TitleLength.message|;
    assert |TitleRequired.field| != |DescriptionTooLong.field|;
    assert |TitleLength.field| != |DescriptionTooLong.field|;
  }

  /** The description is reported exactly when it is over 1000 characters after trimming. */
  lemma DescriptionReportedIff(p: Payload)
    ensures DescriptionTooLong in ValidateCreate(p)
        <==> p.description.Some? && |Trim(p.description.value)| > MaxDescriptionLength
  {
  }

  /** The create chain run as a fold over its rules yields exactly those violations, in order. */
  lemma CreateChainIsValidateCreate(p: Payload)
    ensures RunRules(CreateRules, p) == ValidateCreate(p)
  {
  }

  /** The validator chain as the request pipeline runs it: one validator after
      another, each appending to the errors gathered so far. */
  method RunValidations(rules: seq<Rule>, p: Payload) returns (errors: seq<Violation>)
    ensures errors == RunRules(rules, p)
  {
    errors := [];
    for i := 0 to |rules|
      invariant errors == RunRules(rules[..i], p)
    {
      assert rules[..i + 1][..i] == rules[..i];
      errors := errors + Check(rules[i], p);
    }
    assert rules[..|rules|] == rules;
  }

  /** What `handleValidationErrors` does with the request. */
  datatype Decision = Next | Throw(error: AppError)

  function HandleValidationErrors(errors: seq<Violation>): (d: Decision)
    ensures d == Next <==> errors == []
    ensures d.Throw? ==> d.error == ValidationError(errors) && StatusOf(d.error) == BadRequest
  {
    if errors == [] then Next else Throw(ValidationError(errors))
  }

  /** A create request reaches its handler exactly when its payload is acceptable. */
  lemma CreateProceedsIffAcceptable(p: Payload)
    ensures HandleValidationErrors(ValidateCreate(p)) == Next <==> AcceptableCreate(p)
  {
    ValidateCreateEmptyIff(p);
  }

  /** A whitespace-only title counts as missing. */
  lemma {:induction false} BlankTitleIsRequired(title: string, description: Option<string>)
    requires AllWhitespace(title)
    ensures TitleRequired in ValidateCreate(Payload(Some(title), description))
  {
    TrimSpec(title);
    MissingTitleIsRequired(Payload(Some(title), description));
  }

  /** A title with no surrounding whitespace and more than 200 characters is too long. */
  lemma {:induction false} LongTitleRejected(title: string, description: Option<string>)
    requires |title| > MaxTitleLength
    requires !IsWhitespace(title[0]) && !IsWhitespace(title[|title| - 1])
    ensures TitleLength in ValidateCreate(Payload(Some(title), description))
  {
  }

  /** The same for a description of more than 1000 characters. */
  lemma {:induction false} LongDescriptionRejected(title: Option<string>, description: string)
    requires |description| > MaxDescriptionLength
    requires !IsWhitespace(description[0]) && !IsWhitespace(description[|description| - 1])
    ensures DescriptionTooLong in ValidateCreate(Payload(title, Some(description)))
  {
  }

}
