/**
 * The contract runner of the AI tasks: schema validation, guardrail checks, the
 * fact ledger, and the repair loop around them. The model is any function from
 * call number and prompt to a reply.
 */
module Guardrails {
  import opened Wrappers

  /** A float as the JSON reader yields it: `NaN` and the infinities are accepted spellings. */
  datatype Number = Finite(r: real) | Infinite(positive: bool) | NaN

  datatype Json =
    | Null
    | Bool(b: bool)
    | Int(i: int)
    | Float(x: Number)
    | Str(s: string)
    | List(items: seq<Json>)
    | Object(fields: map<string, Json>)

  datatype Severity = Error | Warning | Info

  datatype Issue = Issue(code: string, severity: Severity, field: string)

  /** `kind` names a type; any other text means no type check. An empty `choices` allows everything. */
  datatype FieldSpec = FieldSpec(
    name: string, kind: string, required: bool, minLength: int, maxLength: int,
    minimum: Option<real>, maximum: Option<real>, choices: seq<string>)

  /** `str(value)` of a value that is no string, and the white space `strip` removes. */
  datatype Text = Text(show: Json -> string, space: char -> bool)

  function Shown(text: Text, value: Json): string {
    if value.Str? then value.s else text.show(value)
  }

  function StripLeft(text: Text, s: string): string {
    if s != [] && text.space(s[0]) then StripLeft(text, s[1..]) else s
  }

  function StripRight(text: Text, s: string): string {
    if s != [] && text.space(s[|s| - 1]) then StripRight(text, s[..|s| - 1]) else s
  }

  function Strip(text: Text, s: string): string {
    StripRight(text, StripLeft(text, s))
  }

  /** A missing field reads as null. */
  function Get(data: map<string, Json>, name: string): Json {
    if name in data then data[name] else Null
  }

  predicate Missing(text: Text, value: Json) {
    value.Null? || (value.Str? && Strip(text, value.s) == [])
  }

  /** `isinstance`: a boolean is an integer, and both pass for a float. */
  predicate HasKind(kind: string, value: Json) {
    if kind == "str" then value.Str?
    else if kind == "int" then value.Int? || value.Bool?
    else if kind == "float" then value.Int? || value.Float? || value.Bool?
    else if kind == "bool" then value.Bool?
    else if kind == "list" then value.List?
    else if kind == "dict" then value.Object?
    else true
  }

  /** `float(value)` */
  function AsFloat(value: Json): Number
    requires value.Int? || value.Float? || value.Bool?
  {
    match value
    case Int(i) => Finite(i as real)
    case Float(x) => x
    case Bool(b) => Finite(if b then 1.0 else 0.0)
  }

  /** `x < bound` and `x > bound`; every comparison with NaN is false. */
  predicate Under(x: Number, bound: real) {
    match x
    case Finite(r) => r < bound
    case Infinite(positive) => !positive
    case NaN => false
  }

  predicate Over(x: Number, bound: real) {
    match x
    case Finite(r) => r > bound
    case Infinite(positive) => positive
    case NaN => false
  }

  // ----- the contract ----------------------------------------------------------------------

  /** `value` is a number, true counting as one and false as zero, and lies on this side of the bound. */
  predicate AtLeast(value: Json, bound: real) {
    match value
    case Int(i) => bound <= i as real
    case Bool(b) => bound <= (if b then 1.0 else 0.0)
    case Float(Finite(r)) => bound <= r
    case Float(Infinite(positive)) => positive
    case _ => false
  }

  predicate AtMost(value: Json, bound: real) {
    match value
    case Int(i) => i as real <= bound
    case Bool(b) => (if b then 1.0 else 0.0) <= bound
    case Float(Finite(r)) => r <= bound
    case Float(Infinite(positive)) => !positive
    case _ => false
  }

  /** Null, or nothing but white space. */
  predicate Blank(text: Text, value: Json) {
    value.Null? || (value.Str? && forall c :: c in value.s ==> text.space(c))
  }

  /** The types a field may be declared with, and what each admits. */
  predicate OfType(kind: string, value: Json) {
    && (kind == "str" ==> value.Str?) && (kind == "bool" ==> value.Bool?)
    && (kind == "list" ==> value.List?) && (kind == "dict" ==> value.Object?)
    && (kind == "int" ==> value.Int? || value.Bool?)
    && (kind == "float" ==> value.Int? || value.Bool? || value.Float?)
  }

  /** What a field must satisfy, rule by rule. */
  predicate FieldOk(text: Text, spec: FieldSpec, value: Json) {
    if Blank(text, value) then !spec.required
    else
      && OfType(spec.kind, value)
      && (spec.kind == "str" ==>
            (spec.minLength == 0 || |Strip(text, value.s)| >= spec.minLength)
            && (spec.maxLength == 0 || |value.s| <= spec.maxLength * 3))
      && (spec.kind == "list" ==> spec.minLength == 0 || |value.items| >= spec.minLength)
      && (spec.kind == "int" || spec.kind == "float" ==>
            (spec.minimum.Some? ==> AtLeast(value, spec.minimum.value))
            && (spec.maximum.Some? ==> AtMost(value, spec.maximum.value)))
      && (spec.choices != [] ==> Shown(text, value) in spec.choices)
  }

  /** A NaN where a range is asked for: neither range test of `validate` fires. */
  predicate SlipsThrough(spec: FieldSpec, value: Json) {
    value == Float(NaN) && spec.kind == "float" && (spec.minimum.Some? || spec.maximum.Some?)
  }

  /** What `validate` enforces: every rule, except the range of a NaN. */
  predicate Passes(text: Text, spec: FieldSpec, value: Json) {
    FieldOk(text, if SlipsThrough(spec, value) then spec.(minimum := None, maximum := None) else spec, value)
  }

  function Violation(code: string, spec: FieldSpec): Issue {
    Issue(code, Error, spec.name)
  }

  function With(issues: seq<Issue>, found: bool, issue: Issue): seq<Issue> {
    if found then issues + [issue] else issues
  }

  function LengthIssues(text: Text, spec: FieldSpec, value: Json): seq<Issue>
    requires HasKind(spec.kind, value)
  {
    if spec.kind == "str" then
      var short := With([], spec.minLength != 0 && |Strip(text, value.s)| < spec.minLength,
                        Violation("too_short", spec));
      With(short, spec.maxLength != 0 && |value.s| > spec.maxLength * 3, Violation("too_long", spec))
    else
      With([], spec.kind == "list" && spec.minLength != 0 && |value.items| < spec.minLength,
           Violation("too_few_items", spec))
  }

  /** The issues `validate` raises for a present value of the right type. */
  function ValueIssues(text: Text, spec: FieldSpec, value: Json): seq<Issue>
    requires HasKind(spec.kind, value)
  {
    var numeric := spec.kind == "int" || spec.kind == "float";
    var length := LengthIssues(text, spec, value);
    var low := With(length, numeric && spec.minimum.Some? && Under(AsFloat(value), spec.minimum.value),
                    Violation("out_of_range", spec));
    var high := With(low, numeric && spec.maximum.Some? && Over(AsFloat(value), spec.maximum.value),
                     Violation("out_of_range", spec));
    With(high, spec.choices != [] && Shown(text, value) !in spec.choices, Violation("invalid_choice", spec))
  }

  function FieldIssues(text: Text, spec: FieldSpec, value: Json): seq<Issue> {
    if Missing(text, value) then With([], spec.required, Violation("missing_field", spec))
    else if !HasKind(spec.kind, value) then [Violation("wrong_type", spec)]
    else ValueIssues(text, spec, value)
  }

  function SchemaIssues(text: Text, specs: seq<FieldSpec>, data: map<string, Json>): seq<Issue> {
    if specs == [] then []
    else
      var spec := specs[|specs| - 1];
      SchemaIssues(text, specs[..|specs| - 1], data) + FieldIssues(text, spec, Get(data, spec.name))
  }

  /** The schema as a predicate on whole documents. */
  ghost predicate Conforms(text: Text, specs: seq<FieldSpec>, data: Json) {
    data.Object? && forall i :: 0 <= i < |specs| ==> FieldOk(text, specs[i], Get(data.fields, specs[i].name))
  }

  /** `validate`'s own reading of the schema. */
  ghost predicate AllPass(text: Text, specs: seq<FieldSpec>, data: Json) {
    data.Object? && forall i :: 0 <= i < |specs| ==> Passes(text, specs[i], Get(data.fields, specs[i].name))
  }

  ghost predicate AnySlips(specs: seq<FieldSpec>, data: Json) {
    data.Object? && exists i :: 0 <= i < |specs| && SlipsThrough(specs[i], Get(data.fields, specs[i].name))
  }

  /** No issue exactly when every rule holds, or every rule but the range of a NaN. */
  lemma FieldIssuesIffNotOk(text: Text, spec: FieldSpec, value: Json)
    ensures FieldIssues(text, spec, value) == [] <==> Passes(text, spec, value)
    ensures FieldOk(text, spec, value) <==> Passes(text, spec, value) && !SlipsThrough(spec, value)
  {
    BlankIffMissing(text, value);
  }

  /** What `strip` leaves starts and ends in ink, and only white space went. */
  lemma {:induction false} StripLeftKeepsCore(text: Text, s: string) returns (i: nat)
    ensures i <= |s| && StripLeft(text, s) == s[i..]
    ensures forall j :: 0 <= j < i ==> text.space(s[j])
    ensures i < |s| ==> !text.space(s[i])
  {
    if s != [] && text.space(s[0]) {
      var rest := s[1..];
      var k := StripLeftKeepsCore(text, rest);
      i := k + 1;
      assert rest[k..] == s[i..];
      assert forall j :: 1 <= j < |s| ==> s[j] == rest[j - 1];
    } else {
      i := 0;
    }
  }

  lemma {:induction false} StripRightKeepsCore(text: Text, s: string) returns (i: nat)
    ensures i <= |s| && StripRight(text, s) == s[..i]
    ensures forall j :: i <= j < |s| ==> text.space(s[j])
    ensures i > 0 ==> !text.space(s[i - 1])
  {
    if s != [] && text.space(s[|s| - 1]) {
      var before := s[..|s| - 1];
      i := StripRightKeepsCore(text, before);
      assert before[..i] == s[..i];
      assert forall j :: 0 <= j < |before| ==> s[j] == before[j];
    } else {
      i := |s|;
    }
  }

  lemma StripKeepsCore(text: Text, s: string) returns (i: nat, j: nat)
    ensures i <= j <= |s| && Strip(text, s) == s[i..j]
    ensures forall k :: 0 <= k < i || j <= k < |s| ==> text.space(s[k])
    ensures i < j ==> !text.space(s[i]) && !text.space(s[j - 1])
  {
    i := StripLeftKeepsCore(text, s);
    var n := StripRightKeepsCore(text, s[i..]);
    j := i + n;
    assert s[i..][..n] == s[i..j];
    forall k | j <= k < |s|
      ensures text.space(s[k])
    {
      assert s[i..][k - i] == s[k];
    }
    if n > 0 {
      assert s[i..][n - 1] == s[j - 1];
    }
  }

  lemma BlankIffMissing(text: Text, value: Json)
    ensures Blank(text, value) <==> Missing(text, value)
  {
    if value.Str? {
      var i, j := StripKeepsCore(text, value.s);
      assert i < j ==> value.s[i] in value.s;
      if i == j {
        assert forall k :: 0 <= k < |value.s| ==> text.space(value.s[k]);
      }
    }
  }

  /** Which issue stands for which rule: each is raised exactly when its rule is broken, as an error of that field. */
  lemma IssueIffRuleBroken(text: Text, spec: FieldSpec, value: Json, code: string)
    ensures var issues := FieldIssues(text, spec, value);
            var raised := Issue(code, Error, spec.name) in issues;
            var typed := !Blank(text, value) && OfType(spec.kind, value);
            var numeric := typed && (spec.kind == "int" || spec.kind == "float");
            && (forall x :: x in issues ==> x.severity == Error && x.field == spec.name)
            && (code == "missing_field" ==> (raised <==> Blank(text, value) && spec.required))
            && (code == "wrong_type" ==> (raised <==> !Blank(text, value) && !OfType(spec.kind, value)))
            && (code == "too_short" ==>
                  (raised <==> typed && spec.kind == "str" && spec.minLength != 0
                               && |Strip(text, value.s)| < spec.minLength))
            && (code == "too_long" ==>
                  (raised <==> typed && spec.kind == "str" && spec.maxLength != 0 && |value.s| > 3 * spec.maxLength))
            && (code == "too_few_items" ==>
                  (raised <==> typed && spec.kind == "list" && spec.minLength != 0 && |value.items| < spec.minLength))
            && (code == "out_of_range" ==>
                  (raised <==> numeric && ((spec.minimum.Some? && Under(AsFloat(value), spec.minimum.value))
                                           || (spec.maximum.Some? && Over(AsFloat(value), spec.maximum.value)))))
            && (code == "invalid_choice" ==>
                  (raised <==> typed && spec.choices != []
                               && (if value.Str? then value.s else text.show(value)) !in spec.choices))
            && (raised ==> code in {"missing_field", "wrong_type", "too_short", "too_long", "too_few_items",
                                    "out_of_range", "invalid_choice"})
  {
    hide Strip, AsFloat, Under, Over, ValueIssues, Missing;
    BlankIffMissing(text, value);
    if !Missing(text, value) && HasKind(spec.kind, value) {
      IssuesByRule(text, spec, value);
    }
  }

  lemma IssuesByRule(text: Text, spec: FieldSpec, value: Json)
    requires HasKind(spec.kind, value)
    ensures forall x :: x in ValueIssues(text, spec, value) <==>
              || (x == Violation("too_short", spec) && spec.kind == "str" && spec.minLength != 0
                  && |Strip(text, value.s)| < spec.minLength)
              || (x == Violation("too_long", spec) && spec.kind == "str" && spec.maxLength != 0
                  && |value.s| > 3 * spec.maxLength)
              || (x == Violation("too_few_items", spec) && spec.kind == "list" && spec.minLength != 0
                  && |value.items| < spec.minLength)
              || (x == Violation("out_of_range", spec) && (spec.kind == "int" || spec.kind == "float")
                  && ((spec.minimum.Some? && Under(AsFloat(value), spec.minimum.value))
                      || (spec.maximum.Some? && Over(AsFloat(value), spec.maximum.value))))
              || (x == Violation("invalid_choice", spec) && spec.choices != []
                  && (if value.Str? then value.s else text.show(value)) !in spec.choices)
  {
  }

  /** The issues of a document are those of its fields, in the order of the schema. */
  lemma {:induction false} SchemaIssuesInOrder(text: Text, specs: seq<FieldSpec>, data: map<string, Json>, i: nat)
    requires i < |specs|
    ensures SchemaIssues(text, [], data) == []
    ensures SchemaIssues(text, specs, data)
            == SchemaIssues(text, specs[..i], data)
               + FieldIssues(text, specs[i], if specs[i].name in data then data[specs[i].name] else Null)
               + SchemaIssues(text, specs[i + 1..], data)
  {
    hide FieldIssues;
    var before, rest := specs[..|specs| - 1], specs[i + 1..];
    if i == |specs| - 1 {
      assert rest == [];
    } else {
      SchemaIssuesInOrder(text, before, data, i);
      assert before[..i] == specs[..i] && before[i + 1..] == rest[..|rest| - 1];
    }
  }

  lemma ConformsIffNoneSlips(text: Text, specs: seq<FieldSpec>, data: Json)
    ensures Conforms(text, specs, data) <==> AllPass(text, specs, data) && !AnySlips(specs, data)
  {
    hide FieldOk, Passes, SlipsThrough;
    if data.Object? {
      forall i | 0 <= i < |specs|
        ensures var value := Get(data.fields, specs[i].name);
                FieldOk(text, specs[i], value) <==> Passes(text, specs[i], value) && !SlipsThrough(specs[i], value)
      {
        FieldIssuesIffNotOk(text, specs[i], Get(data.fields, specs[i].name));
      }
    }
  }

  ghost predicate AllErrors(issues: seq<Issue>) {
    forall x :: x in issues ==> x.severity == Error
  }

  lemma ValueIssuesAreErrors(text: Text, spec: FieldSpec, value: Json)
    requires HasKind(spec.kind, value)
    ensures AllErrors(ValueIssues(text, spec, value))
  {
    assert AllErrors(LengthIssues(text, spec, value));
  }

  lemma FieldIssuesAreErrors(text: Text, spec: FieldSpec, value: Json)
    ensures AllErrors(FieldIssues(text, spec, value))
  {
    if !Missing(text, value) && HasKind(spec.kind, value) {
      ValueIssuesAreErrors(text, spec, value);
    }
  }

  lemma OneMorePasses(text: Text, specs: seq<FieldSpec>, data: Json)
    requires data.Object? && specs != []
    ensures var spec := specs[|specs| - 1];
            AllPass(text, specs, data)
            <==> AllPass(text, specs[..|specs| - 1], data) && Passes(text, spec, Get(data.fields, spec.name))
  {
    var before := specs[..|specs| - 1];
    assert forall i :: 0 <= i < |before| ==> before[i] == specs[i];
  }

  lemma NothingToPass(text: Text, data: Json)
    requires data.Object?
    ensures AllPass(text, [], data)
  {
  }

  lemma {:induction false} SchemaIssuesIffNotConforming(text: Text, specs: seq<FieldSpec>, data: Json)
    requires data.Object?
    ensures SchemaIssues(text, specs, data.fields) == [] <==> AllPass(text, specs, data)
    ensures Conforms(text, specs, data)
       <==> SchemaIssues(text, specs, data.fields) == [] && !AnySlips(specs, data)
    ensures AllErrors(SchemaIssues(text, specs, data.fields))
  {
    hide Passes, SlipsThrough, Conforms, AllPass, AnySlips, FieldIssues;
    ConformsIffNoneSlips(text, specs, data);
    if specs == [] {
      NothingToPass(text, data);
    } else {
      var spec := specs[|specs| - 1];
      SchemaIssuesIffNotConforming(text, specs[..|specs| - 1], data);
      FieldIssuesIffNotOk(text, spec, Get(data.fields, spec.name));
      FieldIssuesAreErrors(text, spec, Get(data.fields, spec.name));
      OneMorePasses(text, specs, data);
    }
  }

  const NOT_AN_OBJECT: seq<Issue> := [Issue("not_an_object", Error, "$")]
  const INVALID_JSON: seq<Issue> := [Issue("invalid_json", Error, "$")]

  /** `validate`: the data itself or nothing, and every violated rule. */
  method Validate(text: Text, specs: seq<FieldSpec>, data: Json) returns (valid: Option<Json>, issues: seq<Issue>)
    ensures valid == if issues == [] then Some(data) else None
    ensures issues == if data.Object? then SchemaIssues(text, specs, data.fields) else NOT_AN_OBJECT
    ensures valid.Some? <==> AllPass(text, specs, data)
    ensures Conforms(text, specs, data) <==> valid.Some? && !AnySlips(specs, data)
  {
    if !data.Object? {
      return None, NOT_AN_OBJECT;
    }
    SchemaIssuesIffNotConforming(text, specs, data);
    issues := [];
    for i := 0 to |specs|
      invariant issues == SchemaIssues(text, specs[..i], data.fields)
    {
      assert specs[..i + 1][..i] == specs[..i];
      var found := ValidateField(text, specs[i], Get(data.fields, specs[i].name));
      issues := issues + found;
    }
    assert specs[..|specs|] == specs;
    assert issues == [] || issues[0] in issues;
    valid := if exists x :: x in issues && x.severity == Error then None else Some(data);
  }

  method ValidateField(text: Text, spec: FieldSpec, value: Json) returns (issues: seq<Issue>)
    ensures issues == FieldIssues(text, spec, value)
  {
    issues := [];
    if value.Null? || (value.Str? && Strip(text, value.s) == []) {
      if spec.required {
        issues := [Violation("missing_field", spec)];
      }
      return;
    }
    if !HasKind(spec.kind, value) {
      return [Violation("wrong_type", spec)];
    }
    issues := ValidateLength(text, spec, value);
    if (spec.kind == "int" || spec.kind == "float") && spec.minimum.Some? && Under(AsFloat(value), spec.minimum.value) {
      issues := issues + [Violation("out_of_range", spec)];
    }
    if (spec.kind == "int" || spec.kind == "float") && spec.maximum.Some? && Over(AsFloat(value), spec.maximum.value) {
      issues := issues + [Violation("out_of_range", spec)];
    }
    if spec.choices != [] && Shown(text, value) !in spec.choices {
      issues := issues + [Violation("invalid_choice", spec)];
    }
  }

  method ValidateLength(text: Text, spec: FieldSpec, value: Json) returns (issues: seq<Issue>)
    requires HasKind(spec.kind, value)
    ensures issues == LengthIssues(text, spec, value)
  {
    issues := [];
    if spec.kind == "str" {
      if spec.minLength != 0 && |Strip(text, value.s)| < spec.minLength {
        issues := issues + [Violation("too_short", spec)];
      }
      if spec.maxLength != 0 && |value.s| > spec.maxLength * 3 {
        issues := issues + [Violation("too_long", spec)];
      }
    }
    if spec.kind == "list" && spec.minLength != 0 && |value.items| < spec.minLength {
      issues := issues + [Violation("too_few_items", spec)];
    }
  }

  // ----- one answer ---------------------------------------------------------------------------

  type Check = Json -> seq<Issue>

  /** `checks` in order; `ledger` is the fact-ledger check when there is one. */
  datatype Task = Task(
    schema: Option<seq<FieldSpec>>, checks: seq<Check>, ledger: Option<Check>, coerce: Option<Json -> Json>,
    repairs: int)

  function Errors(issues: seq<Issue>): seq<Issue> {
    if issues == [] then []
    else With(Errors(issues[..|issues| - 1]), issues[|issues| - 1].severity == Error, issues[|issues| - 1])
  }

  function Warnings(issues: seq<Issue>): nat {
    if issues == [] then 0
    else Warnings(issues[..|issues| - 1]) + (if issues[|issues| - 1].severity == Warning then 1 else 0)
  }

  function Found(checks: seq<Check>, data: Json): seq<Issue> {
    if checks == [] then [] else Found(checks[..|checks| - 1], data) + checks[|checks| - 1](data)
  }

  function Findings(task: Task, data: Json): seq<Issue> {
    Found(task.checks, data) + (if task.ledger.Some? then task.ledger.value(data) else [])
  }

  function Coerced(task: Task, payload: Json): Json {
    if task.coerce.Some? then task.coerce.value(payload) else payload
  }

  datatype Verdict = Accept(data: Json, issues: seq<Issue>) | Reject(violations: seq<Issue>)

  /** What the runner makes of one parsed answer. */
  function Judge(text: Text, task: Task, payload: Json): Verdict {
    if !payload.Object? then Reject(INVALID_JSON)
    else
      var data := Coerced(task, payload);
      var schemaIssues := if task.schema.None? then []
                          else if !data.Object? then NOT_AN_OBJECT
                          else SchemaIssues(text, task.schema.value, data.fields);
      if schemaIssues != [] then Reject(schemaIssues)
      else
        var errors := Errors(Findings(task, data));
        if errors == [] then Accept(data, Findings(task, data)) else Reject(errors)
  }

  ghost predicate NoErrors(issues: seq<Issue>) {
    forall x :: x in issues ==> x.severity != Error
  }

  /** The contract of a task: every rule of every field, and no error from any check or the ledger. */
  ghost predicate Honours(text: Text, task: Task, data: Json) {
    && (task.schema.Some? ==> Conforms(text, task.schema.value, data))
    && (forall i :: 0 <= i < |task.checks| ==> NoErrors(task.checks[i](data)))
    && (task.ledger.Some? ==> NoErrors(task.ledger.value(data)))
  }

  /** The contract as the runner enforces it: a NaN passes every range. */
  ghost predicate Enforced(text: Text, task: Task, data: Json) {
    && (task.schema.Some? ==> AllPass(text, task.schema.value, data))
    && (forall i :: 0 <= i < |task.checks| ==> NoErrors(task.checks[i](data)))
    && (task.ledger.Some? ==> NoErrors(task.ledger.value(data)))
  }

  ghost predicate Slips(task: Task, data: Json) {
    task.schema.Some? && AnySlips(task.schema.value, data)
  }

  lemma HonoursIffNoneSlips(text: Text, task: Task, data: Json)
    ensures Honours(text, task, data) <==> Enforced(text, task, data) && !Slips(task, data)
  {
    hide Conforms, AllPass, AnySlips;
    if task.schema.Some? {
      ConformsIffNoneSlips(text, task.schema.value, data);
    }
  }

  lemma {:induction false} ErrorsEmptyIffNone(issues: seq<Issue>)
    ensures Errors(issues) == [] <==> NoErrors(issues)
    ensures AllErrors(Errors(issues))
  {
    if issues != [] {
      ErrorsEmptyIffNone(issues[..|issues| - 1]);
    }
  }

  lemma {:induction false} FoundNoErrors(checks: seq<Check>, data: Json)
    ensures NoErrors(Found(checks, data)) <==> forall i :: 0 <= i < |checks| ==> NoErrors(checks[i](data))
  {
    if checks != [] {
      var before := checks[..|checks| - 1];
      FoundNoErrors(before, data);
      assert forall i :: 0 <= i < |before| ==> before[i] == checks[i];
    }
  }

  /**
   * An answer honours the contract, coerced, exactly when it is accepted and holds no
   * NaN where a range is asked for; with one it is accepted when it meets every other
   * rule. A rejection names at least one error.
   */
  lemma AcceptedIffHonoured(text: Text, task: Task, payload: Json)
    ensures Judge(text, task, payload).Accept? <==> payload.Object? && Enforced(text, task, Coerced(task, payload))
    ensures payload.Object? && Honours(text, task, Coerced(task, payload))
       <==> Judge(text, task, payload).Accept? && !Slips(task, Coerced(task, payload))
    ensures var v := Judge(text, task, payload);
            match v
            case Accept(data, issues) => data == Coerced(task, payload) && NoErrors(issues)
            case Reject(violations) => violations != [] && AllErrors(violations)
  {
    hide Honours, AllPass, Slips, SchemaIssues;
    var data := Coerced(task, payload);
    if data.Object? && task.schema.Some? {
      SchemaIssuesIffNotConforming(text, task.schema.value, data);
    }
    OnlyObjectsPass(text, task, data);
    ErrorsEmptyIffNone(Findings(task, data));
    FoundNoErrors(task.checks, data);
    HonoursIffNoneSlips(text, task, data);
  }

  lemma OnlyObjectsPass(text: Text, task: Task, data: Json)
    ensures task.schema.Some? && AllPass(text, task.schema.value, data) ==> data.Object?
  {
  }

  // ----- what an answer is rejected for ----------------------------------------------------------

  /** `picked` are the issues of severity error among `findings`, at the places `at`, in order. */
  ghost predicate PicksErrors(findings: seq<Issue>, picked: seq<Issue>, at: seq<nat>) {
    && |at| == |picked|
    && (forall k :: 0 <= k < |at| ==> at[k] < |findings| && picked[k] == findings[at[k]])
    && (forall k, m :: 0 <= k < m < |at| ==> at[k] < at[m])
    && (forall i :: 0 <= i < |findings| ==> (findings[i].severity == Error <==> i in at))
  }

  lemma {:induction false} ErrorsAreTheErrors(findings: seq<Issue>) returns (at: seq<nat>)
    ensures PicksErrors(findings, Errors(findings), at)
  {
    if findings == [] {
      at := [];
    } else {
      hide PicksErrors;
      var before, last := findings[..|findings| - 1], findings[|findings| - 1];
      at := ErrorsAreTheErrors(before);
      assert before + [last] == findings;
      if last.severity == Error {
        PickedOneMore(before, Errors(before), at, last);
        at := at + [|before|];
      } else {
        PassedOneMore(before, Errors(before), at, last);
      }
    }
  }

  lemma PickedOneMore(findings: seq<Issue>, picked: seq<Issue>, at: seq<nat>, x: Issue)
    requires PicksErrors(findings, picked, at) && x.severity == Error
    ensures PicksErrors(findings + [x], picked + [x], at + [|findings|])
  {
    var all, at' := findings + [x], at + [|findings|];
    forall i | 0 <= i < |all|
      ensures all[i].severity == Error <==> i in at'
    {
      if i < |findings| {
        assert all[i] == findings[i];
        assert i in at' <==> i in at;
      } else {
        assert at'[|at|] == i;
      }
    }
  }

  lemma PassedOneMore(findings: seq<Issue>, picked: seq<Issue>, at: seq<nat>, x: Issue)
    requires PicksErrors(findings, picked, at) && x.severity != Error
    ensures PicksErrors(findings + [x], picked, at)
  {
    var all := findings + [x];
    assert forall i :: i in at ==> i < |findings|;
    forall i | 0 <= i < |all|
      ensures all[i].severity == Error <==> i in at
    {
      if i < |findings| {
        assert all[i] == findings[i];
      }
    }
  }

  /** The findings are those of the checks, in their order, and then the ledger's. */
  lemma FindingsInOrder(task: Task, data: Json, i: nat)
    requires i < |task.checks|
    ensures Found([], data) == []
    ensures Found(task.checks, data)
            == Found(task.checks[..i], data) + task.checks[i](data) + Found(task.checks[i + 1..], data)
    ensures Findings(task, data)
            == Found(task.checks, data) + (if task.ledger.Some? then task.ledger.value(data) else [])
  {
    FoundSplits(task.checks, data, i);
  }

  lemma {:induction false} FoundSplits(checks: seq<Check>, data: Json, i: nat)
    requires i < |checks|
    ensures Found(checks, data) == Found(checks[..i], data) + checks[i](data) + Found(checks[i + 1..], data)
  {
    var before, rest := checks[..|checks| - 1], checks[i + 1..];
    if i == |checks| - 1 {
      assert rest == [];
    } else {
      FoundSplits(before, data, i);
      assert before[..i] == checks[..i] && before[i + 1..] == rest[..|rest| - 1];
    }
  }

  /**
   * What an answer is rejected for. No object: that alone. An answer that breaks the
   * schema: the broken rules, and the checks are not asked. Otherwise every error the
   * checks and the ledger raise, each as often as raised and in order, and no warning.
   * An accepted answer carries everything that was found.
   */
  lemma RejectedForEveryError(text: Text, task: Task, payload: Json) returns (at: seq<nat>)
    ensures var v := Judge(text, task, payload);
            var data := if task.coerce.Some? then task.coerce.value(payload) else payload;
            && (!payload.Object? ==> v == Reject([Issue("invalid_json", Error, "$")]))
            && (payload.Object? && task.schema.Some? && !data.Object? ==>
                  v == Reject([Issue("not_an_object", Error, "$")]))
            && (payload.Object? && task.schema.Some? && data.Object? && !AllPass(text, task.schema.value, data) ==>
                  v == Reject(SchemaIssues(text, task.schema.value, data.fields)))
            && (payload.Object? && (task.schema.Some? ==> AllPass(text, task.schema.value, data)) ==>
                  var findings := Findings(task, data);
                  match v
                  case Accept(_, issues) => issues == findings && PicksErrors(findings, [], at)
                  case Reject(violations) => violations != [] && PicksErrors(findings, violations, at))
  {
    hide AllPass, SchemaIssues, Findings, Errors, PicksErrors;
    var data := Coerced(task, payload);
    at := ErrorsAreTheErrors(Findings(task, data));
    if task.schema.Some? && data.Object? {
      SchemaIssuesIffNotConforming(text, task.schema.value, data);
    }
    OnlyObjectsPass(text, task, data);
  }

  // ----- the repair loop -----------------------------------------------------------------------

  /** The original prompt, or the original prompt followed by a list of violations to fix. */
  datatype Prompt = Original | Repair(listed: seq<Issue>)

  /** `_repair_prompt` lists the first eight issues it is given. */
  const LISTED_MAX: nat := 8

  function RepairPrompt(violations: seq<Issue>): Prompt {
    Repair(if |violations| <= LISTED_MAX then violations else violations[..LISTED_MAX])
  }

  /** `Payload` is what is left after JSON extraction, an object or not. */
  datatype Reply = Payload(json: Json) | Unavailable(error: string)

  datatype Report = Report(passed: bool, issues: seq<Issue>, score: int, attempts: nat)

  datatype Outcome =
    | Returned(data: Json, report: Report)
    | AIUnavailable(error: string)
    | GuardrailError(violations: seq<Issue>)

  datatype Run = Run(calls: seq<Prompt>, outcome: Outcome)

  type Model = (nat, Prompt) -> Reply

  /** `_report_from_issues` */
  function ReportOf(issues: seq<Issue>, attempts: nat): Report {
    var score := 100 - 12 * |Errors(issues)| - 3 * Warnings(issues);
    Report(Errors(issues) == [], issues, if score < 0 then 0 else score, attempts)
  }

  type Judgement = Json -> Verdict

  function Judging(text: Text, task: Task): Judgement {
    payload => Judge(text, task, payload)
  }

  /** The calls still to come once `attempt` calls were made and `prompt` is next. */
  function Tries(judge: Judgement, repairs: int, model: Model, attempt: nat, prompt: Prompt): Run
    requires attempt <= repairs
    decreases repairs - attempt
  {
    match model(attempt, prompt)
    case Unavailable(error) => Run([prompt], AIUnavailable(error))
    case Payload(json) =>
      match judge(json)
      case Accept(data, issues) => Run([prompt], Returned(data, ReportOf(issues, attempt + 1)))
      case Reject(violations) =>
        if attempt + 1 <= repairs then
          var rest := Tries(judge, repairs, model, attempt + 1, RepairPrompt(violations));
          Run([prompt] + rest.calls, rest.outcome)
        else Run([prompt], GuardrailError(violations))
  }

  function Guarded(text: Text, task: Task, model: Model): Run {
    if task.repairs < 0 then Run([], GuardrailError([]))
    else Tries(Judging(text, task), task.repairs, model, 0, Original)
  }

  // ----- theorems ---------------------------------------------------------------------------

  ghost predicate Rejected(judge: Judgement, reply: Reply, violations: seq<Issue>) {
    reply.Payload? && judge(reply.json) == Reject(violations)
  }

  /** An outcome that follows from the last reply of a run of `attempts` calls. */
  ghost predicate FollowsFrom(judge: Judgement, reply: Reply, outcome: Outcome, attempts: nat) {
    match outcome
    case AIUnavailable(error) => reply == Unavailable(error)
    case Returned(data, report) =>
      && reply.Payload? && judge(reply.json) == Accept(data, report.issues)
      && report == ReportOf(report.issues, attempts)
    case GuardrailError(violations) => Rejected(judge, reply, violations)
  }

  lemma {:induction false} TriesAreBounded(
    judge: Judgement, repairs: int, model: Model, attempt: nat, prompt: Prompt)
    requires attempt <= repairs
    ensures var run := Tries(judge, repairs, model, attempt, prompt);
            && 1 <= |run.calls| <= repairs + 1 - attempt && run.calls[0] == prompt
            && (run.outcome.GuardrailError? ==> |run.calls| == repairs + 1 - attempt)
    decreases repairs - attempt
  {
    var reply := model(attempt, prompt);
    if reply.Payload? && judge(reply.json).Reject? && attempt + 1 <= repairs {
      TriesAreBounded(judge, repairs, model, attempt + 1, RepairPrompt(judge(reply.json).violations));
    }
  }

  lemma {:induction false} TriesEndInLastReply(
    judge: Judgement, repairs: int, model: Model, attempt: nat, prompt: Prompt)
    requires attempt <= repairs
    ensures var run := Tries(judge, repairs, model, attempt, prompt);
            && |run.calls| > 0
            && FollowsFrom(judge, model(attempt + |run.calls| - 1, run.calls[|run.calls| - 1]), run.outcome,
                           attempt + |run.calls|)
    decreases repairs - attempt
  {
    hide RepairPrompt, Errors, Warnings;
    var reply := model(attempt, prompt);
    if reply.Payload? && judge(reply.json).Reject? && attempt + 1 <= repairs {
      TriesEndInLastReply(judge, repairs, model, attempt + 1, RepairPrompt(judge(reply.json).violations));
    }
  }

  lemma {:induction false} TriesRepairViolations(
    judge: Judgement, repairs: int, model: Model, attempt: nat, prompt: Prompt, i: nat)
    requires attempt <= repairs && i + 1 < |Tries(judge, repairs, model, attempt, prompt).calls|
    ensures var calls := Tries(judge, repairs, model, attempt, prompt).calls;
            var reply := model(attempt + i, calls[i]);
            reply.Payload? && judge(reply.json).Reject? && calls[i + 1] == RepairPrompt(judge(reply.json).violations)
    decreases i
  {
    var violations := judge(model(attempt, prompt).json).violations;
    TriesAreBounded(judge, repairs, model, attempt + 1, RepairPrompt(violations));
    if i > 0 {
      TriesRepairViolations(judge, repairs, model, attempt + 1, RepairPrompt(violations), i - 1);
    }
  }

  /** At most `repairs + 1` model calls, for every model; none at all when `repairs` is negative. */
  lemma CallsAreBounded(text: Text, task: Task, model: Model)
    ensures var run := Guarded(text, task, model);
            && |run.calls| <= (if task.repairs < 0 then 0 else task.repairs + 1)
            && (task.repairs >= 0 ==> run.calls != [] && run.calls[0] == Original)
            && (run.outcome.GuardrailError? ==> |run.calls| == (if task.repairs < 0 then 0 else task.repairs + 1))
  {
    if task.repairs >= 0 {
      TriesAreBounded(Judging(text, task), task.repairs, model, 0, Original);
    }
  }

  /** The reply to the last call of a run. */
  function LastReply(model: Model, calls: seq<Prompt>): Reply
    requires calls != []
  {
    model(|calls| - 1, calls[|calls| - 1])
  }

  lemma GuardedFollowsFromLast(text: Text, task: Task, model: Model)
    requires task.repairs >= 0
    ensures var run := Guarded(text, task, model);
            run.calls != [] && FollowsFrom(Judging(text, task), LastReply(model, run.calls), run.outcome, |run.calls|)
  {
    hide Tries, FollowsFrom, Judging;
    TriesEndInLastReply(Judging(text, task), task.repairs, model, 0, Original);
  }

  /**
   * The last call decides: unavailable iff the model was, returned iff its answer honours
   * the contract or misses it by a NaN in a range only.
   */
  lemma OutcomeIsLastAnswer(text: Text, task: Task, model: Model)
    requires task.repairs >= 0
    ensures Guarded(text, task, model).calls != []
    ensures var run := Guarded(text, task, model);
            var last := LastReply(model, run.calls);
            && (run.outcome.AIUnavailable? <==> last.Unavailable?)
            && (last.Unavailable? ==> run.outcome.error == last.error)
            && (run.outcome.GuardrailError? ==>
                  last.Payload? && Judge(text, task, last.json) == Reject(run.outcome.violations))
            && (run.outcome.Returned? <==>
                last.Payload? && last.json.Object? && Enforced(text, task, Coerced(task, last.json)))
            && (last.Payload? ==>
                  (last.json.Object? && Honours(text, task, Coerced(task, last.json))
                   <==> run.outcome.Returned? && !Slips(task, Coerced(task, last.json))))
  {
    hide Honours, Enforced, Slips, Judge;
    GuardedFollowsFromLast(text, task, model);
    var last := LastReply(model, Guarded(text, task, model).calls);
    if last.Payload? {
      AcceptedIffHonoured(text, task, last.json);
    }
  }

  lemma ReportOfAccepted(issues: seq<Issue>, attempts: nat)
    requires NoErrors(issues)
    ensures ReportOf(issues, attempts).passed && 0 <= ReportOf(issues, attempts).score <= 100
  {
    ErrorsEmptyIffNone(issues);
  }

  /**
   * Whatever the model does, a returned result draws no error from any check or from
   * the ledger and satisfies every rule of every schema field, exactly when it holds no
   * NaN where a range is asked for, and every other rule in any case; the report says
   * so, and counts the calls made.
   */
  lemma ReturnedHonoursContract(text: Text, task: Task, model: Model)
    requires Guarded(text, task, model).outcome.Returned?
    ensures var run := Guarded(text, task, model);
            && Enforced(text, task, run.outcome.data)
            && (Honours(text, task, run.outcome.data) <==> !Slips(task, run.outcome.data))
            && run.outcome.report.passed && run.outcome.report.attempts == |run.calls|
            && NoErrors(run.outcome.report.issues) && 0 <= run.outcome.report.score <= 100
  {
    hide Honours, Enforced, Slips, Judge;
    GuardedFollowsFromLast(text, task, model);
    var run := Guarded(text, task, model);
    AcceptedIffHonoured(text, task, LastReply(model, run.calls).json);
    ReportOfAccepted(run.outcome.report.issues, |run.calls|);
  }

  const UNIT_RANGE: FieldSpec := FieldSpec("score", "float", true, 0, 0, Some(0.0), Some(1.0), [])

  /** It happens: a score that must lie between 0 and 1 comes back as NaN and is returned at the first call. */
  lemma NaNIsReturned(text: Text, model: Model)
    requires model(0, Original) == Payload(Object(map["score" := Float(NaN)]))
    ensures var task := Task(Some([UNIT_RANGE]), [], None, None, 1);
            var run := Guarded(text, task, model);
            && run.calls == [Original] && run.outcome.Returned?
            && run.outcome.data == Object(map["score" := Float(NaN)])
            && !Honours(text, task, run.outcome.data)
  {
    hide Honours, Enforced, Judge;
    var task, answer := Task(Some([UNIT_RANGE]), [], None, None, 1), Object(map["score" := Float(NaN)]);
    NaNPasses(text);
    AcceptedIffHonoured(text, task, answer);
    OnlyTheSchemaCounts(text, task, answer);
  }

  lemma NaNPasses(text: Text)
    ensures var answer := Object(map["score" := Float(NaN)]);
            AllPass(text, [UNIT_RANGE], answer) && AnySlips([UNIT_RANGE], answer)
  {
    assert SlipsThrough([UNIT_RANGE][0], Get(map["score" := Float(NaN)], "score"));
  }

  lemma OnlyTheSchemaCounts(text: Text, task: Task, data: Json)
    requires task.schema.Some? && task.checks == [] && task.ledger.None?
    ensures Enforced(text, task, data) <==> AllPass(text, task.schema.value, data)
  {
  }

  lemma RepairListsTheFirst(violations: seq<Issue>)
    ensures var prompt := RepairPrompt(violations);
            && prompt.Repair? && prompt.listed <= violations
            && (prompt.listed == violations <==> |violations| <= LISTED_MAX)
            && (|violations| > LISTED_MAX ==> |prompt.listed| == LISTED_MAX)
  {
  }

  /** The places of the issues of one severity. */
  ghost function Places(issues: seq<Issue>, severity: Severity): set<nat> {
    set i: nat | i < |issues| && issues[i].severity == severity
  }

  lemma {:induction false} SeveritiesAreCounted(issues: seq<Issue>)
    ensures Warnings(issues) == |Places(issues, Warning)| && |Errors(issues)| == |Places(issues, Error)|
  {
    if issues != [] {
      var before, last := issues[..|issues| - 1], |issues| - 1;
      SeveritiesAreCounted(before);
      forall severity
        ensures |Places(issues, severity)|
                == |Places(before, severity)| + (if issues[last].severity == severity then 1 else 0)
      {
        OneMorePlace(issues, severity);
      }
    }
  }

  lemma OneMorePlace(issues: seq<Issue>, severity: Severity)
    requires issues != []
    ensures var last := |issues| - 1;
            |Places(issues, severity)|
            == |Places(issues[..last], severity)| + (if issues[last].severity == severity then 1 else 0)
  {
    var last := |issues| - 1;
    var here, before := Places(issues, severity), Places(issues[..last], severity);
    forall i: nat
      ensures i in here <==> i in before || (i == last && issues[last].severity == severity)
    {
      if i < last {
        assert issues[..last][i] == issues[i];
      }
    }
    if issues[last].severity == severity {
      assert here == before + {last};
    } else {
      assert here == before;
    }
  }

  /** An error costs twelve points of a hundred and a warning three, down to zero. */
  lemma ScoreCounts(issues: seq<Issue>, attempts: nat)
    ensures var report := ReportOf(issues, attempts);
            var left := 100 - 12 * |Places(issues, Error)| - 3 * |Places(issues, Warning)|;
            report.score == (if left < 0 then 0 else left)
            && (report.passed <==> Places(issues, Error) == {})
  {
    SeveritiesAreCounted(issues);
  }

  /** The report of a returned result holds all findings of its answer; each warning costs three points of a hundred. */
  lemma ReturnedReport(text: Text, task: Task, model: Model)
    requires Guarded(text, task, model).outcome.Returned?
    ensures var run := Guarded(text, task, model);
            var report, cost := run.outcome.report, 3 * |Places(run.outcome.report.issues, Warning)|;
            && run.calls != [] && LastReply(model, run.calls).Payload?
            && run.outcome.data == Coerced(task, LastReply(model, run.calls).json)
            && report.issues == Findings(task, run.outcome.data)
            && report.score == (if cost <= 100 then 100 - cost else 0)
  {
    hide Enforced, Honours, Slips, Judge, Findings;
    GuardedFollowsFromLast(text, task, model);
    var run := Guarded(text, task, model);
    var payload := LastReply(model, run.calls).json;
    AcceptedIffHonoured(text, task, payload);
    AcceptedCarriesFindings(text, task, payload);
    ErrorsEmptyIffNone(run.outcome.report.issues);
    SeveritiesAreCounted(run.outcome.report.issues);
  }

  lemma AcceptedCarriesFindings(text: Text, task: Task, payload: Json)
    requires Judge(text, task, payload).Accept?
    ensures Judge(text, task, payload).issues == Findings(task, Coerced(task, payload))
  {
    hide SchemaIssues, Findings;
  }

  /**
   * Every repair prompt lists the violations the answer before it was rejected for,
   * errors only and at least one, in order: all of them exactly when there are at
   * most eight, the first eight otherwise.
   */
  lemma RepairsNameTheViolations(text: Text, task: Task, model: Model, i: nat)
    requires i + 1 < |Guarded(text, task, model).calls|
    ensures var calls := Guarded(text, task, model).calls;
            var reply := model(i, calls[i]);
            && reply.Payload? && Judge(text, task, reply.json).Reject? && calls[i + 1].Repair?
            && var violations := Judge(text, task, reply.json).violations;
               && calls[i + 1].listed != [] && calls[i + 1].listed <= violations && AllErrors(violations)
               && (calls[i + 1].listed == violations <==> |violations| <= LISTED_MAX)
               && (|violations| > LISTED_MAX ==> |calls[i + 1].listed| == LISTED_MAX)
  {
    hide Judge, Tries, Enforced, Honours, Slips, RepairPrompt;
    TriesRepairViolations(Judging(text, task), task.repairs, model, 0, Original, i);
    RepairListsTheFirst(Judge(text, task, model(i, Guarded(text, task, model).calls[i]).json).violations);
    AcceptedIffHonoured(text, task, model(i, Guarded(text, task, model).calls[i]).json);
  }

  function RequiredField(name: string): FieldSpec {
    FieldSpec(name, "str", true, 0, 0, None, None, [])
  }

  lemma {:induction false} EveryMissingFieldIsAnIssue(text: Text, specs: seq<FieldSpec>)
    requires forall i :: 0 <= i < |specs| ==> specs[i].required
    ensures var issues := SchemaIssues(text, specs, map[]);
            |issues| == |specs| && forall i :: 0 <= i < |specs| ==> issues[i] == Violation("missing_field", specs[i])
  {
    if specs != [] {
      EveryMissingFieldIsAnIssue(text, specs[..|specs| - 1]);
    }
  }

  const NINE_FIELDS: seq<FieldSpec> :=
    [RequiredField("a"), RequiredField("b"), RequiredField("c"), RequiredField("d"), RequiredField("e"),
     RequiredField("f"), RequiredField("g"), RequiredField("h"), RequiredField("i")]

  lemma NineFieldsAreRejected(text: Text, model: Model)
    requires forall i, prompt :: model(i, prompt) == Payload(Object(map[]))
    ensures var issues := SchemaIssues(text, NINE_FIELDS, map[]);
            |issues| == 9
            && Guarded(text, Task(Some(NINE_FIELDS), [], None, None, 1), model).calls
               == [Original, RepairPrompt(issues)]
  {
    hide SchemaIssues, RepairPrompt;
    var task := Task(Some(NINE_FIELDS), [], None, None, 1);
    var issues := SchemaIssues(text, NINE_FIELDS, map[]);
    EveryMissingFieldIsAnIssue(text, NINE_FIELDS);
    assert Judge(text, task, Object(map[])) == Reject(issues);
    TriesTurn(Judging(text, task), 1, model, 0, Original, []);
    TriesTurn(Judging(text, task), 1, model, 1, RepairPrompt(issues), [Original]);
  }

  lemma NinthIsCutOff(text: Text)
    ensures var listed := RepairPrompt(SchemaIssues(text, NINE_FIELDS, map[])).listed;
            && Violation("missing_field", RequiredField("h")) in listed
            && Violation("missing_field", RequiredField("i")) !in listed
  {
    hide SchemaIssues;
    var issues := SchemaIssues(text, NINE_FIELDS, map[]);
    EveryMissingFieldIsAnIssue(text, NINE_FIELDS);
    var listed := issues[..LISTED_MAX];
    assert listed[7] == Violation("missing_field", RequiredField("h"));
    forall i | 0 <= i < |listed|
      ensures listed[i] != Violation("missing_field", RequiredField("i"))
    {
      assert listed[i] == Violation("missing_field", NINE_FIELDS[i]);
    }
  }

  /** An answer that lacks nine required fields gets a repair prompt that never mentions the ninth. */
  lemma NinthViolationIsNotListed(text: Text, model: Model)
    requires forall i, prompt :: model(i, prompt) == Payload(Object(map[]))
    ensures var calls := Guarded(text, Task(Some(NINE_FIELDS), [], None, None, 1), model).calls;
            && |calls| == 2 && calls[1].Repair?
            && Violation("missing_field", RequiredField("h")) in calls[1].listed
            && Violation("missing_field", RequiredField("i")) !in calls[1].listed
  {
    hide SchemaIssues, Guarded;
    NineFieldsAreRejected(text, model);
    NinthIsCutOff(text);
  }

  // ----- the runner as it is written -------------------------------------------------------------

  function Continued(calls: seq<Prompt>, rest: Run): Run {
    Run(calls + rest.calls, rest.outcome)
  }

  lemma TriesTurn(
    judge: Judgement, repairs: int, model: Model, attempt: nat, prompt: Prompt, calls: seq<Prompt>)
    requires attempt <= repairs
    ensures var whole := Continued(calls, Tries(judge, repairs, model, attempt, prompt));
            match model(attempt, prompt)
            case Unavailable(error) => whole == Run(calls + [prompt], AIUnavailable(error))
            case Payload(json) =>
              match judge(json)
              case Accept(data, issues) =>
                whole == Run(calls + [prompt], Returned(data, ReportOf(issues, attempt + 1)))
              case Reject(violations) =>
                if attempt + 1 <= repairs then
                  whole == Continued(calls + [prompt],
                                     Tries(judge, repairs, model, attempt + 1, RepairPrompt(violations)))
                else whole == Run(calls + [prompt], GuardrailError(violations))
  {
    var reply := model(attempt, prompt);
    if reply.Payload? && judge(reply.json).Reject? && attempt + 1 <= repairs {
      var rest := Tries(judge, repairs, model, attempt + 1, RepairPrompt(judge(reply.json).violations)).calls;
      assert calls + ([prompt] + rest) == calls + [prompt] + rest;
    }
  }

  method RunGuardedTask(text: Text, task: Task, model: Model) returns (calls: seq<Prompt>, outcome: Outcome)
    ensures Run(calls, outcome) == Guarded(text, task, model)
  {
    calls := [];
    var prompt := Original;
    ghost var judge := Judging(text, task);
    while |calls| <= task.repairs
      invariant task.repairs >= 0 ==> |calls| <= task.repairs
      invariant task.repairs < 0 ==> calls == []
      invariant task.repairs >= 0 ==>
                  Guarded(text, task, model)
                  == Continued(calls, Tries(judge, task.repairs, model, |calls|, prompt))
      decreases task.repairs - |calls|
    {
      TriesTurn(judge, task.repairs, model, |calls|, prompt, calls);
      var reply := model(|calls|, prompt);
      calls := calls + [prompt];
      if reply.Unavailable? {
        return calls, AIUnavailable(reply.error);
      }
      var verdict := JudgeAnswer(text, task, reply.json);
      if verdict.Accept? {
        return calls, Returned(verdict.data, ReportOf(verdict.issues, |calls|));
      }
      if |calls| > task.repairs {
        return calls, GuardrailError(verdict.violations);
      }
      prompt := RepairPrompt(verdict.violations);
    }
    outcome := GuardrailError([]);
  }

  method JudgeAnswer(text: Text, task: Task, payload: Json) returns (verdict: Verdict)
    ensures verdict == Judge(text, task, payload)
  {
    if !payload.Object? {
      return Reject(INVALID_JSON);
    }
    var data := if task.coerce.Some? then task.coerce.value(payload) else payload;
    if task.schema.Some? {
      var valid, schemaIssues := Validate(text, task.schema.value, data);
      if valid.None? {
        return Reject(schemaIssues);
      }
    }
    var issues: seq<Issue> := [];
    for i := 0 to |task.checks|
      invariant issues == Found(task.checks[..i], data)
    {
      assert task.checks[..i + 1][..i] == task.checks[..i];
      issues := issues + task.checks[i](data);
    }
    assert task.checks[..|task.checks|] == task.checks;
    if task.ledger.Some? {
      issues := issues + task.ledger.value(data);
    } else {
      assert issues + [] == issues;
    }
    var errors := Errors(issues);
    if errors == [] {
      return Accept(data, issues);
    }
    return Reject(errors);
  }
}
