/** The small part of the zod library the validators use: a JSON request body,
    the issues a failed parse reports, and the per-field string, number and
    enum schemas. */
module Schema {

  /** A JSON value of a request-body field, as far as the schemas distinguish it. */
  datatype Value = Text(s: string) | Number(n: real) | Other

  /** A parsed JSON request body. */
  type Body = map<string, Value>

  /** One zod issue: the path of the offending field and its message. */
  datatype Issue = Issue(path: seq<string>, message: string)

  /** One refinement of a field schema (`.min(5, msg)`, `.email({message})`, ...). */
  datatype Check<!T> = Check(ok: T -> bool, message: string)

  /** The outcome of a schema whose definition is not part of this model:
      either the payload it produced or the issues it raised. */
  datatype Parsed<T> = Parsed(value: T) | Rejected(issues: seq<Issue>)

  predicate IsText(body: Body, key: string)
  {
    key in body && body[key].Text?
  }

  predicate IsNumber(body: Body, key: string)
  {
    key in body && body[key].Number?
  }

  /** The string a validated payload carries under `key`. */
  function TextOf(body: Body, key: string): string
  {
    if IsText(body, key) then body[key].s else ""
  }

  /** The number a validated payload carries under `key`. */
  function NumberOf(body: Body, key: string): real
  {
    if IsNumber(body, key) then body[key].n else 0.0
  }

  predicate IsInteger(n: real)
  {
    n.Floor as real == n
  }

  /** One issue on path `[key]` for every check `v` fails, in declaration order:
      zod runs every check of a field, it does not stop at the first. */
  function Failing<T>(key: string, v: T, checks: seq<Check<T>>): (r: seq<Issue>)
    ensures |r| <= |checks|
    ensures forall i :: 0 <= i < |r| ==> r[i].path == [key]
    ensures r == [] <==> forall i :: 0 <= i < |checks| ==> checks[i].ok(v)
    ensures forall i :: 0 <= i < |checks| && !checks[i].ok(v) ==> Issue([key], checks[i].message) in r
    decreases |checks|
  {
    if |checks| == 0 then []
    else
      var rest := Failing(key, v, checks[1..]);
      assert forall i :: 1 <= i < |checks| ==> checks[i] == checks[1..][i - 1];
      (if checks[0].ok(v) then [] else [Issue([key], checks[0].message)]) + rest
  }

  /** `z.string({...}).check1().check2()...` applied to `body[key]`. A missing
      field and a field of another JSON type each raise a single type issue and
      no check runs. */
  function StringIssues(body: Body, key: string, required: string, wrongType: string,
                        checks: seq<Check<string>>): (r: seq<Issue>)
    ensures forall i :: 0 <= i < |r| ==> r[i].path == [key]
    ensures r == [] <==> IsText(body, key) && forall i :: 0 <= i < |checks| ==> checks[i].ok(body[key].s)
    ensures key !in body ==> r == [Issue([key], required)]
    ensures key in body && !body[key].Text? ==> r == [Issue([key], wrongType)]
    ensures IsText(body, key) ==>
              forall i :: 0 <= i < |checks| && !checks[i].ok(body[key].s) ==> Issue([key], checks[i].message) in r
  {
    if key !in body then [Issue([key], required)]
    else
      match body[key]
      case Text(s) => Failing(key, s, checks)
      case _ => [Issue([key], wrongType)]
  }

  /** `z.number().check1()...` applied to `body[key]`. */
  function NumberIssues(body: Body, key: string, required: string, wrongType: string,
                        checks: seq<Check<real>>): (r: seq<Issue>)
    ensures forall i :: 0 <= i < |r| ==> r[i].path == [key]
    ensures r == [] <==> IsNumber(body, key) && forall i :: 0 <= i < |checks| ==> checks[i].ok(body[key].n)
    ensures key !in body ==> r == [Issue([key], required)]
    ensures key in body && !body[key].Number? ==> r == [Issue([key], wrongType)]
  {
    if key !in body then [Issue([key], required)]
    else
      match body[key]
      case Number(n) => Failing(key, n, checks)
      case _ => [Issue([key], wrongType)]
  }

  /** `z.enum(options, { errorMap })`: every failure, a missing field included,
      carries the error map's single message. Membership is exact string
      equality. */
  function EnumIssues(body: Body, key: string, options: seq<string>, message: string): (r: seq<Issue>)
    ensures r == [] <==> IsText(body, key) && body[key].s in options
    ensures r != [] ==> r == [Issue([key], message)]
  {
    if IsText(body, key) && body[key].s in options then [] else [Issue([key], message)]
  }

  /** The single issue zod raises for a field that is missing or not of the
      schema's type; no further check of the field runs. */
  function TypeIssue(body: Body, key: string, required: string, wrongType: string): (r: seq<Issue>)
    ensures |r| == 1 && r[0].path == [key]
    ensures key !in body ==> r == [Issue([key], required)]
    ensures key in body ==> r == [Issue([key], wrongType)]
  {
    if key !in body then [Issue([key], required)] else [Issue([key], wrongType)]
  }

  /** One check of a field: an issue with its message exactly when it fails. */
  function Unless(key: string, ok: bool, message: string): (r: seq<Issue>)
    ensures r == [] <==> ok
    ensures !ok ==> r == [Issue([key], message)]
  {
    if ok then [] else [Issue([key], message)]
  }

  /** True when no issue lies on path `[key]`. */
  predicate NoIssueAt(issues: seq<Issue>, key: string)
  {
    forall i :: 0 <= i < |issues| ==> issues[i].path != [key]
  }

  lemma NoIssueAtConcat(a: seq<Issue>, b: seq<Issue>, key: string)
    ensures NoIssueAt(a + b, key) <==> NoIssueAt(a, key) && NoIssueAt(b, key)
  {
    if NoIssueAt(a, key) && NoIssueAt(b, key) {
      forall i | 0 <= i < |a + b| ensures (a + b)[i].path != [key] {
        if i >= |a| { assert (a + b)[i] == b[i - |a|]; }
      }
    }
    if NoIssueAt(a + b, key) {
      forall i | 0 <= i < |a| ensures a[i].path != [key] {
        assert (a + b)[i] == a[i];
      }
      forall i | 0 <= i < |b| ensures b[i].path != [key] {
        assert (a + b)[|a| + i] == b[i];
      }
    }
  }
}
