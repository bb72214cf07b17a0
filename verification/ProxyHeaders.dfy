/** Header bags on their way through the proxy: which upstream headers are relayed and kept, and how a stored copy
    gets its Date. */
module ProxyHeaders {
  import opened Text
  import Json

  /** The texts of one header value, row by row. */
  function Texts(value: Json.HeaderValue): seq<string> {
    match value
    case Absent => []
    case Single(text) => [text]
    case Rows(rows) => rows
    case Number(n) => [Json.Decimal(n)]
  }

  /** Access by exact key, as headers.name does; an absent value reads like no entry. */
  function Field(headers: Json.Headers, name: string): (v: Json.HeaderValue)
    ensures !v.Absent? ==> (name, v) in headers
  {
    if headers == [] then Json.Absent
    else if headers[0].0 == name && !headers[0].1.Absent? then headers[0].1
    else Field(headers[1..], name)
  }

  const HOP_BY_HOP: set<string> := {
    "connection", "keep-alive", "proxy-authenticate", "proxy-authorization", "te", "trailer", "trailers",
    "transfer-encoding", "upgrade"
  }

  // ----- relaying -----

  /** What Connection nominates, part by part. */
  function Nominated(rows: seq<string>): set<string> {
    set row, part | row in rows && part in Split(row, ',') && Lower(Trim(part)) != "" :: Lower(Trim(part))
  }

  function ConnectionTokens(headers: Json.Headers): set<string> {
    {"proxy-connection"} + Nominated(Texts(Field(headers, "connection")))
  }

  predicate Relayed(tokens: set<string>, key: string, value: Json.HeaderValue) {
    var lower := Lower(key);
    !value.Absent? && lower != "set-cookie" && lower !in tokens && lower !in HOP_BY_HOP
  }

  /** The relayed headers among the first n, in order. */
  function RelayedAmong(headers: Json.Headers, tokens: set<string>, n: nat): Json.Headers
    requires n <= |headers|
  {
    if n == 0 then []
    else
      var before := RelayedAmong(headers, tokens, n - 1);
      if Relayed(tokens, headers[n - 1].0, headers[n - 1].1) then before + [headers[n - 1]] else before
  }

  function Sanitized(headers: Json.Headers): Json.Headers {
    RelayedAmong(headers, ConnectionTokens(headers), |headers|)
  }

  method SanitizeHeaders(headers: Json.Headers) returns (out: Json.Headers)
    ensures out == Sanitized(headers)
  {
    out := [];
    var nominated := ConnectionTokens(headers);
    for i := 0 to |headers|
      invariant out == RelayedAmong(headers, nominated, i)
    {
      var key, value := headers[i].0, headers[i].1;
      var lower := Lower(key);
      if value.Absent? || lower == "set-cookie" {
        continue;
      }
      if lower in nominated {
        continue;
      }
      if lower in HOP_BY_HOP {
        continue;
      }
      out := out + [(key, value)];
    }
  }

  lemma {:induction false} FieldConcat(a: Json.Headers, b: Json.Headers, name: string)
    ensures Field(a + b, name) == if Field(a, name).Absent? then Field(b, name) else Field(a, name)
  {
    if a == [] {
      assert a + b == b;
    } else {
      FieldConcat(a[1..], b, name);
      assert (a + b)[1..] == a[1..] + b;
    }
  }

  lemma {:induction false} FieldAmong(headers: Json.Headers, tokens: set<string>, n: nat, name: string)
    requires n <= |headers|
    ensures var allowed := Lower(name) != "set-cookie" && Lower(name) !in tokens && Lower(name) !in HOP_BY_HOP;
      Field(RelayedAmong(headers, tokens, n), name) == if allowed then Field(headers[..n], name) else Json.Absent
  {
    if n > 0 {
      FieldAmong(headers, tokens, n - 1, name);
      assert headers[..n] == headers[..n - 1] + [headers[n - 1]];
      FieldConcat(headers[..n - 1], [headers[n - 1]], name);
      FieldConcat(RelayedAmong(headers, tokens, n - 1), [headers[n - 1]], name);
    }
  }

  /** A header is relayed as it came, or, when it is hop-by-hop, a cookie or nominated, not at all. */
  lemma SanitizedField(headers: Json.Headers, name: string)
    ensures Field(Sanitized(headers), name) ==
      if Lower(name) == "set-cookie" || Lower(name) in ConnectionTokens(headers) || Lower(name) in HOP_BY_HOP
      then Json.Absent
      else Field(headers, name)
  {
    FieldAmong(headers, ConnectionTokens(headers), |headers|, name);
    assert headers[..|headers|] == headers;
  }

  // ----- the stored copy -----

  datatype Edit = Put(name: string, value: Json.HeaderValue) | Remove(name: string)

  /** The headers the proxy rewrites before it stores a response; neither Age nor Date is among them. */
  const REWRITTEN: set<string> := {
    "cache-control", "vary", "content-length", "content-encoding", "content-md5", "digest", "content-digest", "etag"
  }

  /** Assigning a key keeps its place, or adds it at the end. */
  function SetField(headers: Json.Headers, name: string, value: Json.HeaderValue): Json.Headers {
    if headers == [] then [(name, value)]
    else if headers[0].0 == name then [(name, value)] + headers[1..]
    else [headers[0]] + SetField(headers[1..], name, value)
  }

  /** Deleting a header takes out every spelling of its name. */
  function DeleteField(headers: Json.Headers, name: string): Json.Headers {
    if headers == [] then []
    else (if Lower(headers[0].0) == name then [] else [headers[0]]) + DeleteField(headers[1..], name)
  }

  function EditedOnce(headers: Json.Headers, e: Edit): Json.Headers {
    if Lower(e.name) !in REWRITTEN then headers
    else if e.Put? then SetField(headers, e.name, e.value)
    else DeleteField(headers, Lower(e.name))
  }

  /** The edits one after the other; one of a header the proxy does not rewrite is none. */
  function Edited(headers: Json.Headers, edits: seq<Edit>): Json.Headers {
    if edits == [] then headers else EditedOnce(Edited(headers, edits[..|edits| - 1]), edits[|edits| - 1])
  }

  /** The headers of the stored copy: relayed, rewritten, and given a Date when they have none. */
  function StoredHeaders(upstream: Json.Headers, edits: seq<Edit>, dateText: string): Json.Headers {
    var kept := Edited(Sanitized(upstream), edits);
    if Field(kept, "date").Absent? then SetField(kept, "date", Json.Single(dateText)) else kept
  }

  lemma {:induction false} SetFieldRead(headers: Json.Headers, name: string, value: Json.HeaderValue, other: string)
    ensures other != name ==> Field(SetField(headers, name, value), other) == Field(headers, other)
    ensures Field(headers, name).Absent? && !value.Absent? ==> Field(SetField(headers, name, value), name) == value
  {
    if headers != [] && headers[0].0 != name {
      SetFieldRead(headers[1..], name, value, other);
    }
  }

  lemma {:induction false} DeleteFieldRead(headers: Json.Headers, name: string, other: string)
    requires Lower(other) != name
    ensures Field(DeleteField(headers, name), other) == Field(headers, other)
  {
    if headers != [] {
      DeleteFieldRead(headers[1..], name, other);
      var rest := DeleteField(headers[1..], name);
      assert [] + rest == rest && ([headers[0]] + rest)[1..] == rest;
    }
  }

  lemma {:induction false} EditedRead(headers: Json.Headers, edits: seq<Edit>, other: string)
    requires Lower(other) !in REWRITTEN
    ensures Field(Edited(headers, edits), other) == Field(headers, other)
  {
    if edits != [] {
      var before := Edited(headers, edits[..|edits| - 1]);
      EditedRead(headers, edits[..|edits| - 1], other);
      var e := edits[|edits| - 1];
      if Lower(e.name) in REWRITTEN {
        if e.Put? {
          SetFieldRead(before, e.name, e.value, other);
        } else {
          DeleteFieldRead(before, Lower(e.name), other);
        }
      }
    }
  }

  /** The upstream's Date reaches the stored copy: it came under its key and Connection does not nominate it. */
  predicate DateSurvives(upstream: Json.Headers) {
    !Field(upstream, "date").Absent? && "date" !in ConnectionTokens(upstream)
  }

  lemma AgeAndDateApart(name: string)
    requires name == "age" || name == "date"
    ensures Lower(name) == name && name !in REWRITTEN && name !in HOP_BY_HOP && name != "set-cookie"
  {
    assert name[0] == 'a' || name[0] == 'd';
    if name == "date" {
      assert name[2] == 't';
    }
  }

  /** Age and Date of the stored copy: as they came unless nominated, and a Date in any case. */
  lemma StoredAgeAndDate(upstream: Json.Headers, edits: seq<Edit>, dateText: string)
    ensures Field(StoredHeaders(upstream, edits, dateText), "age") ==
      if "age" in ConnectionTokens(upstream) then Json.Absent else Field(upstream, "age")
    ensures Field(StoredHeaders(upstream, edits, dateText), "date") ==
      if DateSurvives(upstream) then Field(upstream, "date") else Json.Single(dateText)
  {
    var kept := Edited(Sanitized(upstream), edits);
    hide Field, SetField, Sanitized, Edited, ConnectionTokens;
    AgeAndDateApart("age");
    AgeAndDateApart("date");
    EditedRead(Sanitized(upstream), edits, "age");
    EditedRead(Sanitized(upstream), edits, "date");
    SanitizedField(upstream, "age");
    SanitizedField(upstream, "date");
    SetFieldRead(kept, "date", Json.Single(dateText), "age");
  }
}
