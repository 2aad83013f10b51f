/**
 * The form validation of packages/eez-studio-shared/validation.ts: `filterInteger`, the stock
 * validators and the error collection of `makeValidator(...).checkValidity`. A form is a record
 * of field values; a validator's answer is `Pass` (the source's `null`), an error message, or an
 * exception. Rules run one after another (a rule that would return a promise is out of scope).
 */
module Validation {
  import opened Wrappers
  import opened Strings

  // ---------------------------------------------------------------------------
  // Values and messages

  /** A JavaScript field value as the validators meet it; numbers are integers here. */
  datatype FieldValue = Undefined | Null | Str(s: string) | Num(n: int) | Bool(b: bool)

  /** An object with an identity (`ref`) and its fields; an absent field reads as `undefined`. */
  datatype Record = Record(ref: nat, fields: map<string, FieldValue>)

  function Field(r: Record, name: string): FieldValue {
    if name in r.fields then r.fields[name] else Undefined
  }

  /** What a rule answers: no error, an error message, or a thrown exception. */
  datatype Outcome = Pass | Fail(message: string) | Throws

  const MessageInvalidValue := "Invalid value."
  const MessageRequired := "Please fill out this field."
  const TemplateRangeInclusive := "Please enter value between ${min} and ${max}."
  const TemplateRangeInclusiveWithoutMax := "Please enter value greater than or equal to ${min}."
  const TemplateRangeExclusive := "Please enter value between (not included) ${min} and ${max}."
  const TemplateRangeExclusiveWithoutMax := "Please enter value greater than ${min}."
  const MessageNotUnique := "This field has no unique value."

  // ---------------------------------------------------------------------------
  // filterInteger

  /** The whole string is an optional `+` or `-` and at least one decimal digit. */
  predicate IsIntegerLiteral(s: string) {
    if s != [] && (s[0] == '-' || s[0] == '+') then |s| >= 2 && AllDigits(s[1..])
    else |s| >= 1 && AllDigits(s)
  }

  /** `filterInteger`: the number an integer literal denotes, and NaN (`None`) for anything else. */
  function FilterInteger(s: string): (r: Option<int>)
    ensures r.Some? <==> IsIntegerLiteral(s)
    ensures r.Some? && s[0] != '-' ==> r.value >= 0
  {
    if !IsIntegerLiteral(s) then None
    else if s[0] == '-' then Some(-(RadixValue(s[1..], 10) as int))
    else if s[0] == '+' then Some(RadixValue(s[1..], 10))
    else Some(RadixValue(s, 10))
  }

  /** `filterInteger` reads back what `toString` writes for every integer. */
  lemma FilterIntegerToString(n: int)
    ensures FilterInteger(IntToString(n)) == Some(n)
  {
    if n < 0 {
      FilterIntegerNegative(n);
    } else {
      FilterIntegerNatural(n);
    }
  }

  lemma FilterIntegerNegative(n: int)
    requires n < 0
    ensures FilterInteger(IntToString(n)) == Some(n)
  {
    var m: nat := -n;
    var d := NatToString(m);
    NatToStringValue(m);
    assert IntToString(n) == "-" + d;
    FilterIntegerMinus(d, m);
  }

  /** A `-` and a run of digits of value `m` reads as `-m`. */
  lemma FilterIntegerMinus(digits: string, m: nat)
    requires |digits| >= 1 && AllDigits(digits) && RadixValue(digits, 10) == m
    ensures FilterInteger("-" + digits) == Some(-(m as int))
  {
    FilterIntegerDigits(digits);
    FilterIntegerSign(digits);
  }

  lemma FilterIntegerNatural(n: int)
    requires n >= 0
    ensures FilterInteger(IntToString(n)) == Some(n)
  {
    FilterIntegerDigits(NatToString(n));
    NatToStringValue(n);
  }

  /** A bare run of digits reads as its decimal value. */
  lemma FilterIntegerDigits(digits: string)
    requires |digits| >= 1 && AllDigits(digits)
    ensures FilterInteger(digits) == Some(RadixValue(digits, 10))
  {
    assert IsDigit(digits[0]);
  }

  /** A leading `+` changes nothing; a leading `-` negates. */
  lemma FilterIntegerSign(digits: string)
    requires |digits| >= 1 && AllDigits(digits)
    ensures FilterInteger("+" + digits) == FilterInteger(digits)
    ensures FilterInteger("-" + digits) == Some(-FilterInteger(digits).value)
  {
    assert ("+" + digits)[1..] == digits;
    assert ("-" + digits)[1..] == digits;
  }

  /** JavaScript `String(v)`, which the regular expression test of `filterInteger` applies. */
  function JsString(v: FieldValue): string {
    match v
    case Undefined => "undefined"
    case Null => "null"
    case Str(s) => s
    case Num(n) => IntToString(n)
    case Bool(b) => if b then "true" else "false"
  }

  /**
   * JavaScript `Number(v)` for the relational operators; `None` is NaN. A string counts as the
   * integer its trimmed text spells, blank as 0, anything else as NaN.
   */
  function JsNumber(v: FieldValue): Option<int>
  {
    match v
    case Undefined => None
    case Null => Some(0)
    case Str(s) => if Trim(s) == "" then Some(0) else FilterInteger(Trim(s))
    case Num(n) => Some(n)
    case Bool(b) => Some(if b then 1 else 0)
  }

  /** `Number` reads back the text `toString` writes for every integer. */
  lemma JsNumberNumeral(n: int)
    ensures JsNumber(Str(IntToString(n))) == Some(n)
  {
    var s := IntToString(n);
    var d := if n < 0 then NatToString(-n) else NatToString(n);
    assert s[|s| - 1] == d[|d| - 1] && IsDigit(d[|d| - 1]);
    assert s[0] == '-' || s[0] == d[0];
    assert IsDigit(d[0]);
    TrimPlain(s);
    FilterIntegerToString(n);
  }

  /** `Number` of a string of white space only, the empty string included, is 0. */
  lemma JsNumberBlank(s: string)
    requires forall i :: 0 <= i < |s| ==> IsJsWhiteSpace(s[i])
    ensures JsNumber(Str(s)) == Some(0)
  {
    TrimEmptyIffBlank(s);
  }

  // ---------------------------------------------------------------------------
  // Message templates

  predicate NoDollar(s: string) {
    forall i :: 0 <= i < |s| ==> s[i] != '$'
  }

  lemma IntToStringNoDollar(n: int)
    ensures NoDollar(IntToString(n))
  {
    var s := IntToString(n);
    if n < 0 {
      assert s[1..] == NatToString(-n);
      assert forall i :: 1 <= i < |s| ==> s[i] == s[1..][i - 1];
    }
  }

  /** Replacing a `$`-led placeholder in `head + pattern + tail`, where `head` holds no `$`. */
  lemma ReplaceAfterPlain(head: string, pattern: string, tail: string, repl: string)
    requires pattern != [] && pattern[0] == '$' && NoDollar(head)
    ensures ReplaceFirst(head + pattern + tail, pattern, repl) == head + repl + tail
  {
    var s := head + pattern + tail;
    var i := |head|;
    assert s[i..i + |pattern|] == pattern;
    forall j | 0 <= j < i ensures !OccursAt(s, pattern, j) {
      assert s[j] == head[j];
    }
    ReplaceFirstAt(s, pattern, repl, i);
    assert s[..i] == head;
    assert s[i + |pattern|..] == tail;
  }

  /** A template with `${min}` and then `${max}` filled in by two calls of `replace`. */
  lemma FillMinMax(before: string, between: string, after: string, min: int, max: int)
    requires NoDollar(before) && NoDollar(between)
    ensures var template := before + "${min}" + between + "${max}" + after;
      ReplaceFirst(ReplaceFirst(template, "${min}", IntToString(min)), "${max}", IntToString(max))
        == before + IntToString(min) + between + IntToString(max) + after
  {
    var template := before + "${min}" + between + "${max}" + after;
    IntToStringNoDollar(min);
    ReplaceAfterPlain(before, "${min}", between + "${max}" + after, IntToString(min));
    assert template == before + "${min}" + (between + "${max}" + after);
    var once := ReplaceFirst(template, "${min}", IntToString(min));
    var head := before + IntToString(min) + between;
    assert once == head + "${max}" + after;
    assert NoDollar(head) by {
      forall i | 0 <= i < |head| ensures head[i] != '$' {
        if i < |before| {
          assert head[i] == before[i];
        } else if i < |before| + |IntToString(min)| {
          assert head[i] == IntToString(min)[i - |before|];
        } else {
          assert head[i] == between[i - |before| - |IntToString(min)|];
        }
      }
    }
    ReplaceAfterPlain(head, "${max}", after, IntToString(max));
  }

  /** The fixed text around the placeholders of the range templates holds no `$`. */
  lemma TemplateTextPlain()
    ensures NoDollar("Please enter value between ") && NoDollar("Please enter value between (not included) ")
    ensures NoDollar("Please enter value greater than or equal to ") && NoDollar("Please enter value greater than ")
    ensures NoDollar(" and ")
  {
  }

  /** The message of `rangeInclusive`, filled in as the source does. */
  function InclusiveMessage(min: int, max: Option<int>): (r: string)
    ensures max.Some? ==> r == "Please enter value between " + IntToString(min) + " and " + IntToString(max.value) + "."
    ensures max.None? ==> r == "Please enter value greater than or equal to " + IntToString(min) + "."
  {
    if max.Some? then
      assert TemplateRangeInclusive == "Please enter value between " + "${min}" + " and " + "${max}" + ".";
      TemplateTextPlain();
      FillMinMax("Please enter value between ", " and ", ".", min, max.value);
      ReplaceFirst(ReplaceFirst(TemplateRangeInclusive, "${min}", IntToString(min)), "${max}", IntToString(max.value))
    else
      assert TemplateRangeInclusiveWithoutMax == "Please enter value greater than or equal to " + "${min}" + ".";
      TemplateTextPlain();
      ReplaceAfterPlain("Please enter value greater than or equal to ", "${min}", ".", IntToString(min));
      ReplaceFirst(TemplateRangeInclusiveWithoutMax, "${min}", IntToString(min))
  }

  /** The message of `rangeExclusive`, filled in as the source does. */
  function ExclusiveMessage(min: int, max: Option<int>): (r: string)
    ensures max.Some? ==> r == "Please enter value between (not included) " + IntToString(min) + " and " + IntToString(max.value) + "."
    ensures max.None? ==> r == "Please enter value greater than " + IntToString(min) + "."
  {
    if max.Some? then
      assert TemplateRangeExclusive == "Please enter value between (not included) " + "${min}" + " and " + "${max}" + ".";
      TemplateTextPlain();
      FillMinMax("Please enter value between (not included) ", " and ", ".", min, max.value);
      ReplaceFirst(ReplaceFirst(TemplateRangeExclusive, "${min}", IntToString(min)), "${max}", IntToString(max.value))
    else
      assert TemplateRangeExclusiveWithoutMax == "Please enter value greater than " + "${min}" + ".";
      TemplateTextPlain();
      ReplaceAfterPlain("Please enter value greater than ", "${min}", ".", IntToString(min));
      ReplaceFirst(TemplateRangeExclusiveWithoutMax, "${min}", IntToString(min))
  }

  // ---------------------------------------------------------------------------
  // The validators

  /** `validators.required`: `trim` is called on anything defined, and only strings have it. */
  function CheckRequired(v: FieldValue): (r: Outcome)
    ensures r == Fail(MessageRequired) <==>
      v.Undefined? || v.Null? || (v.Str? && forall i :: 0 <= i < |v.s| ==> IsJsWhiteSpace(v.s[i]))
    ensures r.Throws? <==> v.Num? || v.Bool?
    ensures r.Pass? || r.Throws? || r == Fail(MessageRequired)
  {
    match v
    case Undefined => Fail(MessageRequired)
    case Null => Fail(MessageRequired)
    case Str(s) =>
      TrimEmptyIffBlank(s);
      if Trim(s) == "" then Fail(MessageRequired) else Pass
    case _ => Throws
  }

  /** `validators.rangeInclusive(min, max)`; a NaN value passes every comparison. */
  function CheckRangeInclusive(min: int, max: Option<int>, v: FieldValue): (r: Outcome)
    ensures !r.Throws?
    ensures r.Fail? <==> JsNumber(v).Some? && (JsNumber(v).value < min || (max.Some? && JsNumber(v).value > max.value))
    ensures r.Fail? ==> r.message == InclusiveMessage(min, max)
  {
    var value := JsNumber(v);
    if max.Some? then
      if value.Some? && (value.value < min || value.value > max.value) then Fail(InclusiveMessage(min, max)) else Pass
    else
      if value.Some? && value.value < min then Fail(InclusiveMessage(min, max)) else Pass
  }

  /** `validators.rangeExclusive(min, max)`. */
  function CheckRangeExclusive(min: int, max: Option<int>, v: FieldValue): (r: Outcome)
    ensures !r.Throws?
    ensures r.Fail? <==> JsNumber(v).Some? && (JsNumber(v).value <= min || (max.Some? && JsNumber(v).value >= max.value))
    ensures r.Fail? ==> r.message == ExclusiveMessage(min, max)
  {
    var value := JsNumber(v);
    if max.Some? then
      if value.Some? && (value.value <= min || value.value >= max.value) then Fail(ExclusiveMessage(min, max)) else Pass
    else
      if value.Some? && value.value <= min then Fail(ExclusiveMessage(min, max)) else Pass
  }

  /** An element of the collection other than the original object whose field has the same value. */
  predicate Clashes(orig: Option<nat>, element: Record, name: string, value: FieldValue) {
    (orig.None? || element.ref != orig.value) && Field(element, name) == value
  }

  /** The first clashing element, as `find` returns it. */
  function FindClash(orig: Option<nat>, collection: seq<Record>, name: string, value: FieldValue): (k: nat)
    ensures k <= |collection|
    ensures forall j :: 0 <= j < k ==> !Clashes(orig, collection[j], name, value)
    ensures k < |collection| ==> Clashes(orig, collection[k], name, value)
    decreases |collection|
  {
    if collection == [] then 0
    else if Clashes(orig, collection[0], name, value) then 0
    else 1 + FindClash(orig, collection[1..], name, value)
  }

  /** `validators.unique(orig, collection, message)`; an empty message counts as none. */
  function CheckUnique(orig: Option<nat>, collection: seq<Record>, message: Option<string>, form: Record, name: string): (r: Outcome)
    ensures !r.Throws?
    ensures r.Fail? <==> exists k :: 0 <= k < |collection| && Clashes(orig, collection[k], name, Field(form, name))
    ensures r.Fail? ==> r.message == if message.Some? && message.value != "" then message.value else MessageNotUnique
  {
    if FindClash(orig, collection, name, Field(form, name)) < |collection| then
      Fail(if message.Some? && message.value != "" then message.value else MessageNotUnique)
    else Pass
  }

  /** `validators.integer`. */
  function CheckInteger(v: FieldValue): (r: Outcome)
    ensures !r.Throws?
    ensures r.Fail? <==> !IsIntegerLiteral(JsString(v))
    ensures r.Fail? ==> r.message == MessageInvalidValue
  {
    if FilterInteger(JsString(v)).None? then Fail(MessageInvalidValue) else Pass
  }

  /** Every number passes `integer`; `undefined`, `null` and booleans fail it. */
  lemma IntegerAcceptsNumbers(v: FieldValue)
    ensures v.Num? ==> CheckInteger(v) == Pass
    ensures v.Undefined? || v.Null? || v.Bool? ==> CheckInteger(v) == Fail(MessageInvalidValue)
  {
    if v.Num? {
      FilterIntegerToString(v.n);
    }
  }

  /** A rule: one of the stock validators, or any other rule with the answer it gives. */
  datatype Rule =
    | Required
    | RangeInclusive(min: int, max: Option<int>)
    | RangeExclusive(min: int, max: Option<int>)
    | Unique(orig: Option<nat>, collection: seq<Record>, message: Option<string>)
    | Integer
    | Custom(outcome: Outcome)

  /** `rule(form, ruleName)`. */
  function Check(rule: Rule, form: Record, name: string): Outcome {
    var v := Field(form, name);
    match rule
    case Required => CheckRequired(v)
    case RangeInclusive(min, max) => CheckRangeInclusive(min, max, v)
    case RangeExclusive(min, max) => CheckRangeExclusive(min, max, v)
    case Unique(orig, collection, message) => CheckUnique(orig, collection, message, form, name)
    case Integer => CheckInteger(v)
    case Custom(outcome) => outcome
  }

  // ---------------------------------------------------------------------------
  // checkValidity

  /** The rules of a validator, by name in key order; a single rule is a list of one. */
  type Rules = seq<(string, seq<Rule>)>

  /** How `checkValidity` settles: valid or not with its errors, or rejected by an exception. */
  datatype Validity = Resolved(valid: bool, errors: map<string, seq<string>>) | Rejected

  /** The (name, rule) pairs of one entry, in order. */
  function Pairs(entry: (string, seq<Rule>)): seq<(string, Rule)>
  {
    seq(|entry.1|, k requires 0 <= k < |entry.1| => (entry.0, entry.1[k]))
  }

  /** All rule applications of `checkValidity`, in the order it makes them. */
  function Flatten(rules: Rules): seq<(string, Rule)>
    decreases |rules|
  {
    if rules == [] then [] else Flatten(rules[..|rules| - 1]) + Pairs(rules[|rules| - 1])
  }

  /** `setError`, after `checkRule` has run one rule; an exception ends the check. */
  function Step(form: Record, state: Validity, pair: (string, Rule)): Validity {
    match state
    case Rejected => Rejected
    case Resolved(valid, errors) =>
      match Check(pair.1, form, pair.0)
      case Throws => Rejected
      case Pass => state
      case Fail(message) =>
        var existing := if pair.0 in errors then errors[pair.0] else [];
        Resolved(false, errors[pair.0 := existing + [message]])
  }

  /** The state after the given rule applications, starting from `state`. */
  function Run(form: Record, state: Validity, pairs: seq<(string, Rule)>): Validity
    decreases |pairs|
  {
    if pairs == [] then state
    else Step(form, Run(form, state, pairs[..|pairs| - 1]), pairs[|pairs| - 1])
  }

  /** The state after the given rule applications, starting with no error. */
  function Collect(form: Record, pairs: seq<(string, Rule)>): Validity {
    Run(form, Resolved(true, map[]), pairs)
  }

  /** Running two lists of rule applications is running the second from where the first ends. */
  lemma {:induction false} RunAppend(form: Record, state: Validity, a: seq<(string, Rule)>, b: seq<(string, Rule)>)
    ensures Run(form, state, a + b) == Run(form, Run(form, state, a), b)
    decreases |b|
  {
    if b == [] {
      assert a + b == a;
    } else {
      var n := |b| - 1;
      assert (a + b)[..|a + b| - 1] == a + b[..n];
      RunAppend(form, state, a, b[..n]);
    }
  }

  /** The messages the rules named `name` give, in rule order: a reference for `errors[name]`. */
  function Messages(form: Record, pairs: seq<(string, Rule)>, name: string): seq<string>
    decreases |pairs|
  {
    if pairs == [] then []
    else
      var last := pairs[|pairs| - 1];
      Messages(form, pairs[..|pairs| - 1], name)
      + match Check(last.1, form, last.0)
        case Fail(message) => if last.0 == name then [message] else []
        case _ => []
  }

  /** `checkValidity` is rejected exactly when some rule throws. */
  lemma {:induction false} CollectRejected(form: Record, pairs: seq<(string, Rule)>)
    ensures Collect(form, pairs).Rejected? <==> exists k :: 0 <= k < |pairs| && Check(pairs[k].1, form, pairs[k].0).Throws?
    decreases |pairs|
  {
    if pairs != [] {
      var n := |pairs| - 1;
      var prefix := pairs[..n];
      CollectRejected(form, prefix);
      assert forall k :: 0 <= k < n ==> prefix[k] == pairs[k];
    }
  }

  /**
   * When it resolves, `errors[name]` lists the failing rules' messages for that name in rule order,
   * a name with none is absent, and the result is valid exactly when no rule failed.
   */
  lemma {:induction false} CollectErrors(form: Record, pairs: seq<(string, Rule)>, name: string)
    requires Collect(form, pairs).Resolved?
    ensures var r := Collect(form, pairs);
      (name in r.errors <==> Messages(form, pairs, name) != [])
      && (name in r.errors ==> r.errors[name] == Messages(form, pairs, name))
      && (r.valid <==> r.errors == map[])
    decreases |pairs|
  {
    if pairs != [] {
      var n := |pairs| - 1;
      CollectErrors(form, pairs[..n], name);
    }
  }

  /** The result is valid exactly when every rule passed. */
  lemma {:induction false} CollectValid(form: Record, pairs: seq<(string, Rule)>)
    requires Collect(form, pairs).Resolved?
    ensures Collect(form, pairs).valid <==> forall k :: 0 <= k < |pairs| ==> Check(pairs[k].1, form, pairs[k].0).Pass?
    decreases |pairs|
  {
    if pairs != [] {
      var n := |pairs| - 1;
      var prefix := pairs[..n];
      CollectValid(form, prefix);
      assert forall k :: 0 <= k < n ==> prefix[k] == pairs[k];
    }
  }

  /** One entry of `rules`: its rules run in order under its name, from the given state. */
  method CheckEntry(form: Record, entry: (string, seq<Rule>), isValid0: bool, errors0: map<string, seq<string>>)
    returns (rejected: bool, isValid: bool, errors: map<string, seq<string>>)
    ensures Run(form, Resolved(isValid0, errors0), Pairs(entry)) == if rejected then Rejected else Resolved(isValid, errors)
  {
    var name := entry.0;
    var list := entry.1;
    isValid, errors := isValid0, errors0;
    ghost var start := Resolved(isValid0, errors0);
    for j := 0 to |list|
      invariant Run(form, start, Pairs(entry)[..j]) == Resolved(isValid, errors)
    {
      ghost var next := Pairs(entry)[..j + 1];
      assert next[..j] == Pairs(entry)[..j];
      var error := Check(list[j], form, name);
      if error.Throws? {
        assert Run(form, start, next) == Rejected;
        RejectedStays(form, start, next, Pairs(entry));
        return true, isValid, errors;
      }
      if error.Fail? {
        isValid := false;
        var existing := if name in errors then errors[name] else [];
        errors := errors[name := existing + [error.message]];
      }
    }
    assert Pairs(entry)[..|list|] == Pairs(entry);
    rejected := false;
  }

  /** `makeValidator(rules).checkValidity(form)`, the rules run in order. */
  method CheckValidity(rules: Rules, form: Record) returns (r: Validity)
    ensures r == Collect(form, Flatten(rules))
  {
    var isValid := true;
    var errors: map<string, seq<string>> := map[];
    for i := 0 to |rules|
      invariant Collect(form, Flatten(rules[..i])) == Resolved(isValid, errors)
    {
      assert rules[..i + 1][..i] == rules[..i];
      assert Flatten(rules[..i + 1]) == Flatten(rules[..i]) + Pairs(rules[i]);
      RunAppend(form, Resolved(true, map[]), Flatten(rules[..i]), Pairs(rules[i]));
      var rejected;
      rejected, isValid, errors := CheckEntry(form, rules[i], isValid, errors);
      if rejected {
        FlattenPrefix(rules, i + 1);
        RejectedStays(form, Resolved(true, map[]), Flatten(rules[..i + 1]), Flatten(rules));
        return Rejected;
      }
    }
    assert rules[..|rules|] == rules;
    r := Resolved(isValid, errors);
  }

  /** The applications of the first `i` entries come first. */
  lemma {:induction false} FlattenPrefix(rules: Rules, i: nat)
    requires i <= |rules|
    ensures Flatten(rules[..i]) <= Flatten(rules)
    decreases |rules|
  {
    if i < |rules| {
      var n := |rules| - 1;
      assert rules[..n][..i] == rules[..i];
      FlattenPrefix(rules[..n], i);
    } else {
      assert rules[..i] == rules;
    }
  }

  /** Once rejected, the check stays rejected whatever rules follow. */
  lemma {:induction false} RejectedStays(form: Record, state: Validity, pairs: seq<(string, Rule)>, all: seq<(string, Rule)>)
    requires Run(form, state, pairs).Rejected? && pairs <= all
    ensures Run(form, state, all).Rejected?
    decreases |all|
  {
    if |all| > |pairs| {
      var n := |all| - 1;
      assert pairs <= all[..n];
      RejectedStays(form, state, pairs, all[..n]);
    } else {
      assert all == pairs;
    }
  }
}
