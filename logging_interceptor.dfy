/**
 * LoggingInterceptor: the redaction applied to what it logs about a request and
 * its response, and what it does with an error on the way back.
 * A Json value is immutable here, so every sanitiser works on a copy by construction.
 */
module LoggingInterceptor {
  import opened Wrappers
  import opened JsonValues
  import opened HttpErrors

  const REDACTED: string := "***REDACTED***"
  const SENSITIVE_FIELDS: seq<string> := ["password", "refreshToken", "accessToken", "token"]
  const SENSITIVE_HEADERS: seq<string> := ["authorization", "cookie", "x-api-key", "x-auth-token"]

  /** The keys a list names, as a set. */
  function KeySet(keys: seq<string>): set<string> {
    set k | k in keys
  }

  /**
   * The copy in which each key of `keys` holding a truthy value is replaced by the
   * redaction marker. Keys are kept, truthiness is kept, and nothing else changes.
   */
  function Redact(m: map<string, Json>, keys: set<string>): (r: map<string, Json>)
    ensures r.Keys == m.Keys
    ensures forall k :: k in m && k in keys && Truthy(m[k]) ==> r[k] == JStr(REDACTED)
    ensures forall k :: k in m && (k !in keys || !Truthy(m[k])) ==> r[k] == m[k]
  {
    map k | k in m :: if k in keys && Truthy(m[k]) then JStr(REDACTED) else m[k]
  }

  /** Redacting one more key changes at most that key. */
  lemma RedactOneMore(m: map<string, Json>, done: set<string>, k: string)
    ensures Redact(m, done + {k}) ==
      if k in m && Truthy(m[k]) then Redact(m, done)[k := JStr(REDACTED)] else Redact(m, done)
  {
  }

  /**
   * The `forEach` over the sensitive names: a truthy value under one of them is
   * overwritten in the copy.
   */
  method RedactFields(obj: map<string, Json>, keys: seq<string>) returns (sanitized: map<string, Json>)
    ensures sanitized == Redact(obj, KeySet(keys))
  {
    sanitized := obj;
    for i := 0 to |keys|
      invariant sanitized == Redact(obj, KeySet(keys[..i]))
    {
      var field := keys[i];
      if field in sanitized && Truthy(sanitized[field]) {
        sanitized := sanitized[field := JStr(REDACTED)];
      }
      assert KeySet(keys[..i + 1]) == KeySet(keys[..i]) + {field} by {
        assert keys[..i + 1] == keys[..i] + [field];
      }
      RedactOneMore(obj, KeySet(keys[..i]), field);
    }
    assert keys[..|keys|] == keys;
  }

  /** What `sanitizeBody` logs: `{}` for a falsy body, otherwise the spread copy with sensitive fields redacted. */
  function SanitizedBody(body: Json): (r: Json)
    ensures r.JObj?
    ensures !Truthy(body) ==> r == JObj(map[])
    ensures Truthy(body) ==> r.fields.Keys == Spread(body).Keys
    ensures Truthy(body) ==> r == JObj(Redact(Spread(body), KeySet(SENSITIVE_FIELDS)))
  {
    if !Truthy(body) then JObj(map[]) else JObj(Redact(Spread(body), KeySet(SENSITIVE_FIELDS)))
  }

  /** What `sanitizeHeaders` logs: the spread copy with sensitive headers redacted. */
  function SanitizedHeaders(headers: Json): (r: Json)
    ensures r.JObj? && r.fields.Keys == Spread(headers).Keys
    ensures r == JObj(Redact(Spread(headers), KeySet(SENSITIVE_HEADERS)))
  {
    JObj(Redact(Spread(headers), KeySet(SENSITIVE_HEADERS)))
  }

  /** What `sanitizeResponseObject` returns: anything but a non-null object unchanged, otherwise the redacted copy. */
  function SanitizedObject(obj: Json): (r: Json)
    ensures !(obj.JObj? || obj.JArr?) ==> r == obj
    ensures obj.JObj? || obj.JArr? ==> r.JObj? && r.fields.Keys == Spread(obj).Keys
    ensures obj.JObj? || obj.JArr? ==> r == JObj(Redact(Spread(obj), KeySet(SENSITIVE_FIELDS)))
  {
    if !IsObjectType(obj) || obj.JNull? then obj
    else JObj(Redact(Spread(obj), KeySet(SENSITIVE_FIELDS)))
  }

  /** `items.map(sanitizeResponseObject)`: same length, same order, each item sanitised. */
  function SanitizedItems(items: seq<Json>): (r: seq<Json>)
    ensures |r| == |items|
    ensures forall i :: 0 <= i < |items| ==> r[i] == SanitizedObject(items[i])
  {
    if items == [] then [] else [SanitizedObject(items[0])] + SanitizedItems(items[1..])
  }

  /** What `sanitizeResponse` logs: falsy data as is, an array item by item, anything else as one object. */
  function SanitizedResponse(data: Json): (r: Json)
    ensures !Truthy(data) ==> r == data
    ensures data.JArr? ==> (r.JArr? && |r.items| == |data.items|
      && forall i :: 0 <= i < |data.items| ==> r.items[i] == SanitizedObject(data.items[i]))
    ensures Truthy(data) && !data.JArr? ==> r == SanitizedObject(data)
  {
    if !Truthy(data) then data
    else match data
      case JArr(items) => JArr(SanitizedItems(items))
      case _ => SanitizedObject(data)
  }

  method SanitizeBody(body: Json) returns (r: Json)
    ensures r == SanitizedBody(body)
  {
    if !Truthy(body) {
      return JObj(map[]);
    }
    var sanitized := RedactFields(Spread(body), SENSITIVE_FIELDS);
    r := JObj(sanitized);
  }

  method SanitizeHeaders(headers: Json) returns (r: Json)
    ensures r == SanitizedHeaders(headers)
  {
    var sanitized := RedactFields(Spread(headers), SENSITIVE_HEADERS);
    r := JObj(sanitized);
  }

  method SanitizeResponseObject(obj: Json) returns (r: Json)
    ensures r == SanitizedObject(obj)
  {
    if !IsObjectType(obj) || obj.JNull? {
      return obj;
    }
    var sanitized := RedactFields(Spread(obj), SENSITIVE_FIELDS);
    r := JObj(sanitized);
  }

  /** A logged value under a sensitive key is never a truthy value other than the marker. */
  predicate NothingSensitive(v: Json, keys: seq<string>) {
    v.JObj? ==> forall k :: k in v.fields && k in keys ==> v.fields[k] == JStr(REDACTED) || !Truthy(v.fields[k])
  }

  /** No truthy secret reaches the log through the body, the headers or a response object. */
  lemma SecretsNeverLogged(body: Json, headers: Json, data: Json)
    ensures NothingSensitive(SanitizedBody(body), SENSITIVE_FIELDS)
    ensures NothingSensitive(SanitizedHeaders(headers), SENSITIVE_HEADERS)
    ensures NothingSensitive(SanitizedResponse(data), SENSITIVE_FIELDS) || SanitizedResponse(data).JArr?
    ensures data.JArr? ==> forall i :: 0 <= i < |data.items| && IsObjectType(data.items[i]) ==>
      NothingSensitive(SanitizedResponse(data).items[i], SENSITIVE_FIELDS)
  {
    if Truthy(data) && !data.JArr? && (data.JObj? || data.JArr?) {
      assert SanitizedResponse(data) == JObj(Redact(Spread(data), KeySet(SENSITIVE_FIELDS)));
    }
  }

  /** Redacting twice is redacting once: the marker is itself truthy. */
  lemma RedactIdempotent(m: map<string, Json>, keys: set<string>)
    ensures Redact(Redact(m, keys), keys) == Redact(m, keys)
  {
  }

  /** Each sanitiser is idempotent. */
  lemma {:induction false} SanitisersIdempotent(body: Json, headers: Json, data: Json)
    ensures SanitizedBody(SanitizedBody(body)) == SanitizedBody(body)
    ensures SanitizedHeaders(SanitizedHeaders(headers)) == SanitizedHeaders(headers)
    ensures SanitizedObject(SanitizedObject(data)) == SanitizedObject(data)
    ensures SanitizedResponse(SanitizedResponse(data)) == SanitizedResponse(data)
  {
    RedactIdempotent(Spread(body), KeySet(SENSITIVE_FIELDS));
    RedactIdempotent(Spread(headers), KeySet(SENSITIVE_HEADERS));
    RedactIdempotent(Spread(data), KeySet(SENSITIVE_FIELDS));
    if data.JArr? {
      var items := data.items;
      forall i | 0 <= i < |items|
        ensures SanitizedObject(SanitizedObject(items[i])) == SanitizedObject(items[i])
      {
        RedactIdempotent(Spread(items[i]), KeySet(SENSITIVE_FIELDS));
      }
    }
  }

  /**
   * Only top-level keys are redacted. A non-sensitive key is logged with its
   * value as received, so a password inside a nested object is logged as is;
   * and a body is logged exactly as received if and only if each of its
   * top-level sensitive keys is falsy or already holds the marker.
   */
  lemma NestedSecretsKept(m: map<string, Json>, k: string)
    requires k in m && k !in KeySet(SENSITIVE_FIELDS)
    ensures SanitizedBody(JObj(m)).fields[k] == m[k]
    ensures SanitizedBody(JObj(m)) == JObj(m) <==>
      forall f :: f in m && f in KeySet(SENSITIVE_FIELDS) && Truthy(m[f]) ==> m[f] == JStr(REDACTED)
  {
    var keys := KeySet(SENSITIVE_FIELDS);
    if forall f :: f in m && f in keys && Truthy(m[f]) ==> m[f] == JStr(REDACTED) {
      assert Redact(m, keys) == m;
    }
  }

  /** A non-empty run of decimal digits: the shape of every array index key. */
  predicate IsIndexKey(key: string) {
    |key| >= 1 && forall i :: 0 <= i < |key| ==> '0' <= key[i] <= '9'
  }

  lemma {:induction false} DecimalStringIsIndexKey(n: nat)
    ensures IsIndexKey(DecimalString(n))
    decreases n
  {
    if n >= 10 {
      DecimalStringIsIndexKey(n / 10);
    }
  }

  lemma {:induction false} IndexKeyedKeys(items: seq<Json>)
    ensures forall key :: key in IndexKeyed(items) ==> IsIndexKey(key)
    decreases |items|
  {
    if |items| > 0 {
      IndexKeyedKeys(items[..|items| - 1]);
      DecimalStringIsIndexKey(|items| - 1);
    }
  }

  /** An array inside a response array is logged as its index-keyed object, not as an array, and nothing in it is redacted. */
  lemma NestedArrayBecomesObject(items: seq<Json>, i: nat)
    requires i < |items| && items[i].JArr?
    ensures SanitizedResponse(JArr(items)).items[i] == JObj(IndexKeyed(items[i].items))
  {
    var inner := IndexKeyed(items[i].items);
    IndexKeyedKeys(items[i].items);
    assert forall key :: key in inner ==> key !in KeySet(SENSITIVE_FIELDS) by {
      forall key | key in inner ensures key !in KeySet(SENSITIVE_FIELDS) {
        assert IsIndexKey(key);
        assert key[0] != 'p' && key[0] != 'r' && key[0] != 'a' && key[0] != 't';
      }
    }
    assert Redact(inner, KeySet(SENSITIVE_FIELDS)) == inner;
  }

  /** The fields of the error log this model keeps: the request line and the status. */
  datatype ErrorLog = ErrorLog(verb: string, url: string, statusCode: Json)

  /** The log entry written (if any) and the error that travels on. */
  datatype ErrorHandling = ErrorHandling(log: Option<ErrorLog>, rethrown: Exception)

  /** `error.status`; None when reading it throws, which happens for a thrown null or undefined. */
  function StatusProperty(err: Exception): Option<Json> {
    match err
    case HttpException(status, _, _) => Some(JNum(status))
    case ErrorInstance(_, _, status, _) => Some(status)
    case ThrownValue(v) => if v.JNull? || v.JUndefined? then None else Some(Property(v, "status"))
  }

  /** The TypeError a property read on null or undefined throws. */
  function ReadFailure(v: Json, stack: string): Exception {
    ErrorInstance("TypeError",
      "Cannot read properties of " + (if v.JNull? then "null" else "undefined") + " (reading 'status')",
      JUndefined, stack)
  }

  /**
   * The `catchError` branch: log `error.status || 500` and rethrow the error
   * itself. For a thrown null or undefined the status read throws first, so
   * nothing is logged and a TypeError (with the given stack) travels on instead.
   */
  function OnError(verb: string, url: string, err: Exception, stack: string): (h: ErrorHandling)
    ensures h.log.None? <==> err == ThrownValue(JNull) || err == ThrownValue(JUndefined)
    ensures h.log.Some? ==> (h.rethrown == err && h.log.value.verb == verb && h.log.value.url == url
      && Truthy(h.log.value.statusCode))
    ensures h.log.Some? && Truthy(StatusProperty(err).value) ==> h.log.value.statusCode == StatusProperty(err).value
    ensures h.log.Some? && !Truthy(StatusProperty(err).value) ==> h.log.value.statusCode == JNum(500)
    ensures h.log.None? ==> h.rethrown.ErrorInstance? && h.rethrown.name == "TypeError"
  {
    match StatusProperty(err)
    case None => ErrorHandling(None, ReadFailure(err.value, stack))
    case Some(status) =>
      ErrorHandling(Some(ErrorLog(verb, url, if Truthy(status) then status else JNum(500))), err)
  }

  /** An HTTP exception is logged with its own status, unless that status is the falsy 0. */
  lemma HttpStatusLogged(verb: string, url: string, status: int, response: ExceptionResponse, stack: string, s: string)
    ensures OnError(verb, url, HttpException(status, response, stack), s).log ==
      Some(ErrorLog(verb, url, JNum(if status != 0 then status else 500)))
  {
  }
}
