/**
 * The part of go-playground/validator the request types rely on, and the
 * rendering of its failure list into the multi-line message the `Validate`
 * methods return.
 *
 * `validate.Struct` visits the fields in declaration order and, for each field,
 * its tags in order; the first tag that fails is reported as one failure
 * (field name, tag, parameter) and the field's later tags are skipped. Only the
 * tags the requests use are modelled: `required`, `min=n`, `max=n` (both counting
 * characters) and `email`, whose address grammar is a predicate parameter.
 */
module Validation {
  import opened Wrappers
  import Text
  import Strconv

  datatype Rule = Required | Min(n: nat) | Max(n: nat) | Email

  /** One entry of `validator.ValidationErrors`: `Field()`, `Tag()` and `Param()`. */
  datatype FieldError = FieldError(field: string, tag: string, param: string)

  /** A struct field as the validator sees it: its Go name, its value, its `validate` tags. */
  datatype FieldSpec = FieldSpec(name: string, value: string, rules: seq<Rule>)

  function Tag(r: Rule): string
  {
    match r
    case Required => "required"
    case Min(_) => "min"
    case Max(_) => "max"
    case Email => "email"
  }

  function Param(r: Rule): string
  {
    match r
    case Min(n) => Strconv.Itoa(n)
    case Max(n) => Strconv.Itoa(n)
    case _ => ""
  }

  predicate Satisfies(value: string, r: Rule, isEmail: string -> bool)
  {
    match r
    case Required => value != ""
    case Min(n) => |value| >= n
    case Max(n) => |value| <= n
    case Email => isEmail(value)
  }

  /** Rule `k` is the first of `rules` that `value` fails: all the earlier ones hold. */
  predicate FailsFirstAt(value: string, rules: seq<Rule>, k: int, isEmail: string -> bool)
  {
    0 <= k < |rules| && !Satisfies(value, rules[k], isEmail) &&
    forall j :: 0 <= j < k ==> Satisfies(value, rules[j], isEmail)
  }

  /** The first of `rules` that `value` fails, if any. */
  function FirstViolation(value: string, rules: seq<Rule>, isEmail: string -> bool): (v: Option<Rule>)
    ensures v.None? <==> forall k :: 0 <= k < |rules| ==> Satisfies(value, rules[k], isEmail)
    ensures v.Some? ==> exists k :: FailsFirstAt(value, rules, k, isEmail) && rules[k] == v.value
    decreases |rules|
  {
    if rules == [] then None
    else if !Satisfies(value, rules[0], isEmail) then
      assert FailsFirstAt(value, rules, 0, isEmail);
      Some(rules[0])
    else
      var v := FirstViolation(value, rules[1..], isEmail);
      assert v.Some? ==> exists k :: FailsFirstAt(value, rules, k, isEmail) && rules[k] == v.value by {
        if v.Some? {
          var k :| FailsFirstAt(value, rules[1..], k, isEmail) && rules[1..][k] == v.value;
          forall j | 0 < j < k + 1 ensures Satisfies(value, rules[j], isEmail) {
            assert rules[j] == rules[1..][j - 1];
          }
          assert FailsFirstAt(value, rules, k + 1, isEmail);
        }
      }
      v
  }

  /** What `validate.Struct` reports for one field: its first failing tag, or nothing. */
  function Report(f: FieldSpec, isEmail: string -> bool): (errs: seq<FieldError>)
    ensures |errs| <= 1
    ensures errs == [] <==> FirstViolation(f.value, f.rules, isEmail).None?
    ensures errs != [] ==> errs[0].field == f.name
    ensures errs != [] ==>
      exists k :: FailsFirstAt(f.value, f.rules, k, isEmail) && errs[0].tag == Tag(f.rules[k]) && errs[0].param == Param(f.rules[k])
  {
    match FirstViolation(f.value, f.rules, isEmail)
    case None => []
    case Some(r) => [FieldError(f.name, Tag(r), Param(r))]
  }

  /** Each field's report from `report`, one field after the other. */
  function Gather(report: FieldSpec -> seq<FieldError>, fields: seq<FieldSpec>): seq<FieldError>
    decreases |fields|
  {
    if fields == [] then [] else report(fields[0]) + Gather(report, fields[1..])
  }

  /** The per-field report as a function value, so that the gathering lemmas hold for every report. */
  function Reporter(isEmail: string -> bool): FieldSpec -> seq<FieldError>
  {
    f => Report(f, isEmail)
  }

  lemma {:induction false} GatherAppend(report: FieldSpec -> seq<FieldError>, a: seq<FieldSpec>, b: seq<FieldSpec>)
    ensures Gather(report, a + b) == Gather(report, a) + Gather(report, b)
    decreases |a|
  {
    if a == [] {
      assert a + b == b;
    } else {
      GatherAppend(report, a[1..], b);
      assert (a + b)[0] == a[0] && (a + b)[1..] == a[1..] + b;
    }
  }

  /** Reports of at most one failure each, with the four modelled tags, gather into at most one per field. */
  lemma {:induction false} ReportsBounded(fields: seq<FieldSpec>, isEmail: string -> bool)
    ensures |Gather(Reporter(isEmail), fields)| <= |fields|
    ensures forall e :: e in Gather(Reporter(isEmail), fields) ==> e.tag in {"required", "min", "max", "email"}
    decreases |fields|
  {
    if fields != [] {
      ReportsBounded(fields[1..], isEmail);
      assert Reporter(isEmail)(fields[0]) == Report(fields[0], isEmail);
    }
  }

  /** The failures `validate.Struct` reports for the given fields, in field order. */
  function Failures(fields: seq<FieldSpec>, isEmail: string -> bool): (errs: seq<FieldError>)
    ensures |errs| <= |fields|
    ensures forall e :: e in errs ==> e.tag in {"required", "min", "max", "email"}
  {
    ReportsBounded(fields, isEmail);
    Gather(Reporter(isEmail), fields)
  }

  /** The first field's report comes first. */
  lemma FailuresCons(fields: seq<FieldSpec>, isEmail: string -> bool)
    requires fields != []
    ensures Failures(fields, isEmail) == Report(fields[0], isEmail) + Failures(fields[1..], isEmail)
  {
    assert Reporter(isEmail)(fields[0]) == Report(fields[0], isEmail);
  }

  /** Failures of consecutive groups of fields come one group after the other. */
  lemma FailuresAppend(a: seq<FieldSpec>, b: seq<FieldSpec>, isEmail: string -> bool)
    ensures Failures(a + b, isEmail) == Failures(a, isEmail) + Failures(b, isEmail)
  {
    GatherAppend(Reporter(isEmail), a, b);
  }

  /** The positions of the fields that fail some tag, in increasing order. */
  function FailingFields(fields: seq<FieldSpec>, isEmail: string -> bool): (idx: seq<nat>)
    ensures forall k :: 0 <= k < |idx| ==>
      idx[k] < |fields| && FirstViolation(fields[idx[k]].value, fields[idx[k]].rules, isEmail).Some?
    ensures forall k, l :: 0 <= k < l < |idx| ==> idx[k] < idx[l]
    ensures forall i :: 0 <= i < |fields| && FirstViolation(fields[i].value, fields[i].rules, isEmail).Some? ==> i in idx
    decreases |fields|
  {
    if fields == [] then []
    else
      var n := |fields| - 1;
      var before := FailingFields(fields[..n], isEmail);
      assert forall i :: 0 <= i < n ==> fields[..n][i] == fields[i];
      before + (if FirstViolation(fields[n].value, fields[n].rules, isEmail).Some? then [n] else [])
  }

  predicate AllSatisfied(fields: seq<FieldSpec>, isEmail: string -> bool)
  {
    forall i, k :: 0 <= i < |fields| && 0 <= k < |fields[i].rules| ==>
      Satisfies(fields[i].value, fields[i].rules[k], isEmail)
  }

  /** The validator reports nothing exactly when every field meets every one of its tags. */
  lemma {:induction false} NoFailuresIff(fields: seq<FieldSpec>, isEmail: string -> bool)
    ensures Failures(fields, isEmail) == [] <==> AllSatisfied(fields, isEmail)
    decreases |fields|
  {
    if fields != [] {
      NoFailuresIff(fields[1..], isEmail);
      FailuresCons(fields, isEmail);
      assert forall i :: 0 < i < |fields| ==> fields[i] == fields[1..][i - 1];
      if AllSatisfied(fields[1..], isEmail) && FirstViolation(fields[0].value, fields[0].rules, isEmail).None? {
        forall i, k | 0 <= i < |fields| && 0 <= k < |fields[i].rules|
          ensures Satisfies(fields[i].value, fields[i].rules[k], isEmail)
        {
          if i > 0 {
            assert fields[i] == fields[1..][i - 1];
          }
        }
      }
    }
  }

  /**
   * Exactly one failure per failing field and none for the others, in field order: the
   * k-th failure is what the k-th failing field reports, its first failing tag.
   */
  lemma {:induction false} FailuresPerField(fields: seq<FieldSpec>, isEmail: string -> bool)
    ensures |Failures(fields, isEmail)| == |FailingFields(fields, isEmail)|
    ensures forall k :: 0 <= k < |Failures(fields, isEmail)| ==>
      [Failures(fields, isEmail)[k]] == Report(fields[FailingFields(fields, isEmail)[k]], isEmail)
    decreases |fields|
  {
    if fields != [] {
      var n := |fields| - 1;
      FailuresPerField(fields[..n], isEmail);
      FailuresPerFieldStep(fields[..n], fields[n], isEmail);
      assert fields[..n] + [fields[n]] == fields;
    }
  }

  /** One more field at the end adds its report at the end. */
  lemma FailuresSnoc(pre: seq<FieldSpec>, f: FieldSpec, isEmail: string -> bool)
    ensures Failures(pre + [f], isEmail) == Failures(pre, isEmail) + Report(f, isEmail)
  {
    FailuresAppend(pre, [f], isEmail);
    FailuresCons([f], isEmail);
    assert [f][1..] == [];
  }

  /** One more field at the end is one more failing position when it fails. */
  lemma FailingFieldsSnoc(pre: seq<FieldSpec>, f: FieldSpec, isEmail: string -> bool)
    ensures FailingFields(pre + [f], isEmail) ==
      FailingFields(pre, isEmail) + (if Report(f, isEmail) == [] then [] else [|pre|])
  {
    assert (pre + [f])[..|pre|] == pre;
  }

  /** The inductive step of `FailuresPerField`. */
  lemma FailuresPerFieldStep(pre: seq<FieldSpec>, f: FieldSpec, isEmail: string -> bool)
    requires |Failures(pre, isEmail)| == |FailingFields(pre, isEmail)|
    requires forall k :: 0 <= k < |Failures(pre, isEmail)| ==>
      [Failures(pre, isEmail)[k]] == Report(pre[FailingFields(pre, isEmail)[k]], isEmail)
    ensures |Failures(pre + [f], isEmail)| == |FailingFields(pre + [f], isEmail)|
    ensures forall k :: 0 <= k < |Failures(pre + [f], isEmail)| ==>
      [Failures(pre + [f], isEmail)[k]] == Report((pre + [f])[FailingFields(pre + [f], isEmail)[k]], isEmail)
  {
    FailuresSnoc(pre, f, isEmail);
    FailingFieldsSnoc(pre, f, isEmail);
    var errs, idx := Failures(pre + [f], isEmail), FailingFields(pre + [f], isEmail);
    var errsPre, idxPre := Failures(pre, isEmail), FailingFields(pre, isEmail);
    forall k | 0 <= k < |errs|
      ensures [errs[k]] == Report((pre + [f])[idx[k]], isEmail)
    {
      if k < |errsPre| {
        EarlierFailureUnchanged(pre, f, isEmail, k);
      } else {
        LastFailure(pre, f, isEmail, k);
      }
    }
  }

  /** A failure of the earlier fields keeps its position and its field when a field is appended. */
  lemma EarlierFailureUnchanged(pre: seq<FieldSpec>, f: FieldSpec, isEmail: string -> bool, k: nat)
    requires |Failures(pre, isEmail)| == |FailingFields(pre, isEmail)|
    requires k < |Failures(pre, isEmail)|
    requires [Failures(pre, isEmail)[k]] == Report(pre[FailingFields(pre, isEmail)[k]], isEmail)
    ensures k < |Failures(pre + [f], isEmail)| && k < |FailingFields(pre + [f], isEmail)|
    ensures [Failures(pre + [f], isEmail)[k]] == Report((pre + [f])[FailingFields(pre + [f], isEmail)[k]], isEmail)
  {
    FailuresSnoc(pre, f, isEmail);
    FailingFieldsSnoc(pre, f, isEmail);
    var i := FailingFields(pre, isEmail)[k];
    assert FailingFields(pre + [f], isEmail)[k] == i;
    assert Failures(pre + [f], isEmail)[k] == Failures(pre, isEmail)[k];
    assert (pre + [f])[i] == pre[i];
  }

  /** A failure past the earlier fields' ones is the appended field's report. */
  lemma LastFailure(pre: seq<FieldSpec>, f: FieldSpec, isEmail: string -> bool, k: nat)
    requires |Failures(pre, isEmail)| == |FailingFields(pre, isEmail)|
    requires |Failures(pre, isEmail)| <= k < |Failures(pre + [f], isEmail)|
    ensures k < |FailingFields(pre + [f], isEmail)|
    ensures [Failures(pre + [f], isEmail)[k]] == Report((pre + [f])[FailingFields(pre + [f], isEmail)[k]], isEmail)
  {
    FailuresSnoc(pre, f, isEmail);
    FailingFieldsSnoc(pre, f, isEmail);
    assert FailingFields(pre + [f], isEmail)[k] == |pre|;
    assert Failures(pre + [f], isEmail)[k..] == Report(f, isEmail);
  }

  /** Every failure names a field of the struct. */
  lemma FailuresNameFields(fields: seq<FieldSpec>, isEmail: string -> bool)
    ensures forall e :: e in Failures(fields, isEmail) ==> exists i :: 0 <= i < |fields| && e.field == fields[i].name
  {
    FailuresPerField(fields, isEmail);
    var errs, idx := Failures(fields, isEmail), FailingFields(fields, isEmail);
    forall e | e in errs
      ensures exists i :: 0 <= i < |fields| && e.field == fields[i].name
    {
      var k :| 0 <= k < |errs| && errs[k] == e;
      assert [e] == Report(fields[idx[k]], isEmail);
    }
  }

  lemma {:induction false} DigitsHaveNoNewline(s: string)
    requires Strconv.AllDigits(s)
    ensures '\n' !in s
  {
  }

  /** Field names without newlines give failures without newlines: tags and parameters have none. */
  lemma {:induction false} FailuresHaveNoNewline(fields: seq<FieldSpec>, isEmail: string -> bool)
    requires forall i :: 0 <= i < |fields| ==> '\n' !in fields[i].name
    ensures forall k :: 0 <= k < |Failures(fields, isEmail)| ==> NoNewline(Failures(fields, isEmail)[k])
    decreases |fields|
  {
    if fields != [] {
      FailuresHaveNoNewline(fields[1..], isEmail);
      FailuresCons(fields, isEmail);
      var v := FirstViolation(fields[0].value, fields[0].rules, isEmail);
      if v.Some? && (v.value.Min? || v.value.Max?) {
        var n := if v.value.Min? then v.value.n else v.value.n;
        DigitsHaveNoNewline(Strconv.Itoa(n));
      }
    }
  }

  /** The three line formats of the `Validate` methods, without the terminating newline. */
  datatype Style =
    | Detailed  // RegisterRequest: required, email, min, max, and a generic line
    | Brief     // LoginRequest: required, email, and a generic line
    | Terse     // ArticleRequest and CommentRequest: "Field <field> <tag>"

  function Line(style: Style, e: FieldError): (line: string)
    ensures |line| >= 6 && line[..6] == "Field "
  {
    match style
    case Detailed =>
      if e.tag == "required" then "Field " + e.field + " is required"
      else if e.tag == "email" then "Field " + e.field + " must be a valid email address"
      else if e.tag == "min" then "Field " + e.field + " must be at least " + e.param + " characters long"
      else if e.tag == "max" then "Field " + e.field + " must not exceed " + e.param + " characters"
      else "Field " + e.field + " failed validation: " + e.tag
    case Brief =>
      if e.tag == "required" then "Field " + e.field + " is required"
      else if e.tag == "email" then "Field " + e.field + " must be a valid email address"
      else "Field " + e.field + " failed validation: " + e.tag
    case Terse =>
      "Field " + e.field + " " + e.tag
  }

  /** A line wording as a function value, so that the rendering lemmas hold for every wording. */
  function Wording(style: Style): FieldError -> string
  {
    e => Line(style, e)
  }

  /** Each failure's line as `format` words it, followed by a newline, in order. */
  function Terminated(format: FieldError -> string, errs: seq<FieldError>): string
    decreases |errs|
  {
    if errs == [] then "" else format(errs[0]) + "\n" + Terminated(format, errs[1..])
  }

  /** What the `strings.Builder` holds after writing one terminated line per failure. */
  function Render(style: Style, errs: seq<FieldError>): (message: string)
    ensures message == "" <==> errs == []
  {
    Terminated(Wording(style), errs)
  }

  /** The lines of the message, one per failure, in the reported order. */
  function Lines(style: Style, errs: seq<FieldError>): (lines: seq<string>)
    ensures |lines| == |errs|
    ensures forall i :: 0 <= i < |errs| ==> lines[i] == Line(style, errs[i])
    decreases |errs|
  {
    if errs == [] then []
    else
      var rest := Lines(style, errs[1..]);
      assert forall i :: 1 <= i < |errs| ==> rest[i - 1] == Line(style, errs[1..][i - 1]) && errs[1..][i - 1] == errs[i];
      [Line(style, errs[0])] + rest
  }

  /** The message starts with the first failure's line and its newline. */
  lemma RenderCons(style: Style, errs: seq<FieldError>)
    requires errs != []
    ensures Render(style, errs) == (Line(style, errs[0]) + "\n") + Render(style, errs[1..])
  {
  }

  lemma {:induction false} TerminatedAppend(format: FieldError -> string, a: seq<FieldError>, b: seq<FieldError>)
    ensures Terminated(format, a + b) == Terminated(format, a) + Terminated(format, b)
    decreases |a|
  {
    if a == [] {
      assert a + b == b;
    } else {
      TerminatedAppend(format, a[1..], b);
      assert (a + b)[0] == a[0] && (a + b)[1..] == a[1..] + b;
    }
  }

  /** Rendering distributes over concatenation: earlier failures come first in the message. */
  lemma RenderAppend(style: Style, a: seq<FieldError>, b: seq<FieldError>)
    ensures Render(style, a + b) == Render(style, a) + Render(style, b)
  {
    TerminatedAppend(Wording(style), a, b);
  }

  /** One more step of the `strings.Builder` loop: the next failure's line is appended. */
  lemma RenderStep(style: Style, errs: seq<FieldError>, i: nat)
    requires i < |errs|
    ensures Render(style, errs[..i + 1]) == Render(style, errs[..i]) + (Line(style, errs[i]) + "\n")
  {
    RenderAppend(style, errs[..i], [errs[i]]);
    assert errs[..i + 1] == errs[..i] + [errs[i]];
    assert [errs[i]][1..] == [];
    assert Terminated(Wording(style), [errs[i]]) == Wording(style)(errs[i]) + "\n" + Terminated(Wording(style), []);
  }

  /** The `strings.Builder` loop shared by the article and comment checks: "Field <field> <tag>" per failure. */
  method WriteFieldTagMessage(errs: seq<FieldError>) returns (sb: string)
    ensures sb == Render(Terse, errs)
  {
    sb := "";
    for i := 0 to |errs|
      invariant sb == Render(Terse, errs[..i])
    {
      var e := errs[i];
      sb := sb + ("Field " + e.field + " " + e.tag + "\n");
      RenderStep(Terse, errs, i);
    }
    assert errs[..|errs|] == errs;
  }

  predicate NoNewline(e: FieldError)
  {
    '\n' !in e.field && '\n' !in e.tag && '\n' !in e.param
  }

  lemma LineHasNoNewline(style: Style, e: FieldError)
    requires NoNewline(e)
    ensures '\n' !in Line(style, e)
  {
    match style
    case Detailed =>
    case Brief =>
    case Terse =>
  }

  /**
   * Cutting the message at its newlines gives exactly one line per failure, in order,
   * followed by the empty remainder after the final newline.
   */
  lemma {:induction false} RenderSplitsIntoLines(style: Style, errs: seq<FieldError>)
    requires forall i :: 0 <= i < |errs| ==> NoNewline(errs[i])
    ensures Text.Split(Render(style, errs), '\n') == Lines(style, errs) + [""]
    ensures Text.Occurrences(Render(style, errs), '\n') == |errs|
    decreases |errs|
  {
    Text.SplitCount(Render(style, errs), '\n');
    if errs != [] {
      RenderSplitsIntoLines(style, errs[1..]);
      RenderCons(style, errs);
      LineHasNoNewline(style, errs[0]);
      Text.SplitAtFirst(Line(style, errs[0]), Render(style, errs[1..]), '\n');
    }
  }
}
