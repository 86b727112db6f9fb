/** The request gate of src/auth.py: the shared-secret check that guards the
    webhook handler, and the required-field check of the JSON body. */
module Auth {
  import opened Wrappers

  /** The status the gate answers with when it refuses a request. */
  const Forbidden: int := 403

  const MissingHeaderError: string := "認証ヘッダーがありません"
  const MismatchError: string := "認証に失敗しました"
  const EmptyBodyMessage: string := "リクエストボディが空です"
  const MissingFieldsPrefix: string := "必須フィールドがありません: "

  /** What the guarded endpoint answers: a refusal made by the gate, or
      whatever the wrapped handler returns. */
  datatype Response<R> = Refused(status: int, error: string) | Handled(result: R)

  /** The decision inside `verify_webhook_secret`: `header` is the value of the
      X-AppSheet-Secret header (None when absent); the handler runs only when
      the header is present, non-empty and equal to the configured secret. */
  function CheckSecret<R>(header: Option<string>, secret: string, handler: () -> R): (r: Response<R>)
    ensures r.Handled? <==> header == Some(secret) && secret != ""
    ensures r.Handled? ==> r.result == handler()
    ensures r.Refused? ==> r.status == Forbidden
    ensures header.None? || header.value == "" ==> r == Refused(Forbidden, MissingHeaderError)
    ensures header.Some? && header.value != "" && header.value != secret ==> r == Refused(Forbidden, MismatchError)
  {
    if header.None? || header.value == "" then Refused(Forbidden, MissingHeaderError)
    else if header.value != secret then Refused(Forbidden, MismatchError)
    else Handled(handler())
  }

  /** The list comprehension of `validate_request_body`: the required fields
      that are not keys of the body, in the order they are required. */
  function MissingFields<V>(data: map<string, V>, required: seq<string>): (missing: seq<string>)
    ensures forall f :: f in missing <==> f in required && f !in data
    ensures |missing| <= |required|
  {
    if required == [] then []
    else (if required[0] in data then [] else [required[0]]) + MissingFields(data, required[1..])
  }

  /** The comprehension keeps the order of the required fields: splitting the
      list splits the result the same way. */
  lemma {:induction false} MissingFieldsAppend<V>(data: map<string, V>, front: seq<string>, back: seq<string>)
    ensures MissingFields(data, front + back) == MissingFields(data, front) + MissingFields(data, back)
  {
    if front == [] {
      assert front + back == back;
    } else {
      assert (front + back)[1..] == front[1..] + back;
      MissingFieldsAppend(data, front[1..], back);
    }
  }

  /** Total length of a list of strings. */
  function TotalLength(parts: seq<string>): nat {
    if |parts| == 0 then 0 else |parts[0]| + TotalLength(parts[1..])
  }

  /** Python's `sep.join(parts)`: the parts in order, one separator between
      each neighbouring pair, and nothing for an empty list. */
  function Join(parts: seq<string>, sep: string): (s: string)
    ensures |parts| == 0 ==> s == ""
    ensures |parts| > 0 ==> |s| == TotalLength(parts) + (|parts| - 1) * |sep|
    ensures |parts| > 0 ==> |parts[0]| <= |s| && s[..|parts[0]|] == parts[0]
  {
    if |parts| == 0 then ""
    else if |parts| == 1 then parts[0]
    else parts[0] + sep + Join(parts[1..], sep)
  }

  /** Appending a part to a non-empty list appends the separator and the part. */
  lemma {:induction false} JoinAppend(parts: seq<string>, part: string, sep: string)
    requires |parts| > 0
    ensures Join(parts + [part], sep) == Join(parts, sep) + sep + part
  {
    if |parts| == 1 {
      assert parts + [part] == [parts[0], part];
      assert [parts[0], part][1..] == [part];
    } else {
      assert (parts + [part])[1..] == parts[1..] + [part];
      JoinAppend(parts[1..], part, sep);
    }
  }

  /** `validate_request_body`: `data` is the parsed body (None for a JSON null
      or a missing body). An empty body is refused before any field is checked;
      otherwise the body is valid exactly when every required field is a key,
      and the message lists the missing fields in order. */
  function ValidateRequestBody<V>(data: Option<map<string, V>>, required: seq<string>): (r: (bool, string))
    ensures data.None? || |data.value| == 0 ==> r == (false, EmptyBodyMessage)
    ensures data.Some? && |data.value| > 0 ==> (r.0 <==> forall f :: f in required ==> f in data.value)
    ensures r.0 ==> r.1 == ""
    ensures data.Some? && |data.value| > 0 && !r.0 ==>
      r.1 == MissingFieldsPrefix + Join(MissingFields(data.value, required), ", ")
  {
    if data.None? || |data.value| == 0 then (false, EmptyBodyMessage)
    else
      var missing := MissingFields(data.value, required);
      if missing != [] then
        assert missing[0] in missing;
        (false, MissingFieldsPrefix + Join(missing, ", "))
      else (true, "")
  }

  /** Two spot checks of the validator. */
  lemma ValidatorExamples()
    ensures ValidateRequestBody(Some(map["id" := 1, "text" := 2]), ["id", "text"]) == (true, "")
    ensures ValidateRequestBody(Some(map["id" := 1]), ["id", "text"]) == (false, MissingFieldsPrefix + "text")
    ensures ValidateRequestBody<int>(Some(map[]), []) == (false, EmptyBodyMessage)
  {
    assert MissingFields(map["id" := 1], ["text"]) == ["text"];
    assert MissingFields(map["id" := 1], ["id", "text"]) == ["text"];
  }
}
