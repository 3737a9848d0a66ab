/** `validateConnectionString` of the BTCPay Server onboarding step: decide
    whether pasted text describes a usable gRPC endpoint for BTC. */
module ConnectionValidator {
  import opened JsonValue

  /** What `validateConnectionString` does with a text: returns `undefined`
      (Valid), returns the error message (Invalid), or throws a TypeError
      out of `.find` or out of a property read on `null` (Throws). */
  datatype Verdict = Valid | Invalid(message: string) | Throws

  /** What `configs.find(c => c.type === 'grpc' && c.cryptoCode === 'BTC')`
      does: returns the first matching entry, returns `undefined`, or throws
      because the predicate read a property of a `null` entry. */
  datatype Selection = Found(entry: Json) | NotFound | FindThrows

  /** The find predicate on a non-null entry (strict equality with the two
      string literals). */
  predicate IsGrpcBtc(c: Json)
  {
    Member(c, "type") == Some(JString("grpc")) && Member(c, "cryptoCode") == Some(JString("BTC"))
  }

  /** An entry the find predicate evaluates to false without throwing. */
  predicate Skipped(c: Json)
  {
    c != JNull && !IsGrpcBtc(c)
  }

  /** `configs.find(...)`: visits the entries in order and stops at the
      first one that matches or on which the predicate throws. */
  function FindGrpcBtc(configs: seq<Json>): (s: Selection)
    ensures s.Found? ==> s.entry in configs && IsGrpcBtc(s.entry) && s.entry.JObject?
    ensures s.NotFound? ==> forall i :: 0 <= i < |configs| ==> Skipped(configs[i])
    ensures s.FindThrows? ==> JNull in configs
  {
    if configs == [] then NotFound
    else if configs[0] == JNull then FindThrows
    else if IsGrpcBtc(configs[0]) then Found(configs[0])
    else FindGrpcBtc(configs[1..])
  }

  /** `get(config, 'configurations', [])`: the member when the document has
      one (even `null`), the empty array when it is absent, including when
      the document is not an object at all. */
  function Configurations(doc: Json): Json
  {
    match Member(doc, "configurations")
    case Some(c) => c
    case None => JArray([])
  }

  /** `const { host, port, macaroon } = params` followed by
      `if (!host || !port || !macaroon)` being false. */
  predicate HasEndpoint(params: Json)
  {
    TruthyMember(params, "host") && TruthyMember(params, "port") && TruthyMember(params, "macaroon")
  }

  /** Steps 2 to 4 of the validator, on the outcome of `JSON.parse`. */
  function ValidateDocument(parsed: Option<Json>, btcpayError: string): (v: Verdict)
    ensures v.Invalid? ==> v.message == btcpayError
    ensures v == Valid ==> parsed.Some? && Configurations(parsed.value).JArray?
  {
    match parsed
    case None => Invalid(btcpayError)
    case Some(doc) =>
      var configs := Configurations(doc);
      if !configs.JArray? then Throws
      else
        var selection := FindGrpcBtc(configs.items);
        if selection.FindThrows? then Throws
        else
          // `... || {}`: a found entry is an object, hence truthy
          var params := if selection.Found? then selection.entry else JObject(map[]);
          if HasEndpoint(params) then Valid else Invalid(btcpayError)
  }

  /** `validateConnectionString(value)`, with `JSON.parse` given as `parse`
      (None when it throws) and the formatted `btcpay_error` message as
      `btcpayError`. */
  function ValidateConnectionString(parse: string -> Option<Json>, text: string, btcpayError: string): (v: Verdict)
    ensures parse(text).None? ==> v == Invalid(btcpayError)
    ensures v.Invalid? ==> v.message == btcpayError
  {
    ValidateDocument(parse(text), btcpayError)
  }

  // ---------------------------------------------------------------------
  // A reference description of `find`, by index

  /** Entry `i` is the first match and every entry before it is skipped. */
  ghost predicate FirstMatchAt(configs: seq<Json>, i: int)
  {
    0 <= i < |configs| && IsGrpcBtc(configs[i]) &&
    forall j :: 0 <= j < i ==> Skipped(configs[j])
  }

  /** Entry `i` is `null` and every entry before it is skipped: the
      predicate throws on it. */
  ghost predicate NullBeforeMatchAt(configs: seq<Json>, i: int)
  {
    0 <= i < |configs| && configs[i] == JNull &&
    forall j :: 0 <= j < i ==> Skipped(configs[j])
  }

  lemma {:induction false} FindFirstMatch(configs: seq<Json>, i: int)
    requires FirstMatchAt(configs, i)
    ensures FindGrpcBtc(configs) == Found(configs[i])
  {
    if i > 0 {
      assert Skipped(configs[0]);
      assert FirstMatchAt(configs[1..], i - 1) by {
        forall j | 0 <= j < i - 1 ensures Skipped(configs[1..][j]) {
          assert configs[1..][j] == configs[j + 1];
        }
      }
      FindFirstMatch(configs[1..], i - 1);
    }
  }

  lemma {:induction false} FindNullBeforeMatch(configs: seq<Json>, i: int)
    requires NullBeforeMatchAt(configs, i)
    ensures FindGrpcBtc(configs) == FindThrows
  {
    if i > 0 {
      assert Skipped(configs[0]);
      assert NullBeforeMatchAt(configs[1..], i - 1) by {
        forall j | 0 <= j < i - 1 ensures Skipped(configs[1..][j]) {
          assert configs[1..][j] == configs[j + 1];
        }
      }
      FindNullBeforeMatch(configs[1..], i - 1);
    }
  }

  /** Whatever `find` returns is described by an index of the list. */
  lemma {:induction false} FindStopsAtIndex(configs: seq<Json>)
    ensures FindGrpcBtc(configs).Found? ==>
              exists i :: FirstMatchAt(configs, i) && configs[i] == FindGrpcBtc(configs).entry
    ensures FindGrpcBtc(configs).FindThrows? ==> exists i :: NullBeforeMatchAt(configs, i)
  {
    if configs != [] && configs[0] != JNull && !IsGrpcBtc(configs[0]) {
      var rest := configs[1..];
      FindStopsAtIndex(rest);
      if FindGrpcBtc(rest).Found? {
        var i :| FirstMatchAt(rest, i) && rest[i] == FindGrpcBtc(rest).entry;
        assert FirstMatchAt(configs, i + 1);
      }
      if FindGrpcBtc(rest).FindThrows? {
        var i :| NullBeforeMatchAt(rest, i);
        assert NullBeforeMatchAt(configs, i + 1);
      }
    } else if configs != [] {
      assert FindGrpcBtc(configs).Found? ==> FirstMatchAt(configs, 0);
      assert FindGrpcBtc(configs).FindThrows? ==> NullBeforeMatchAt(configs, 0);
    }
  }

  /** `find` agrees with the index description in every case: it finds the
      first match, throws exactly when a `null` comes before any match, and
      finds nothing exactly when every entry is skipped. */
  lemma FindGrpcBtcSpec(configs: seq<Json>)
    ensures forall i :: FirstMatchAt(configs, i) ==> FindGrpcBtc(configs) == Found(configs[i])
    ensures FindGrpcBtc(configs).Found? <==> exists i :: FirstMatchAt(configs, i)
    ensures FindGrpcBtc(configs).FindThrows? <==> exists i :: NullBeforeMatchAt(configs, i)
    ensures FindGrpcBtc(configs).NotFound? <==> forall i :: 0 <= i < |configs| ==> Skipped(configs[i])
  {
    FindStopsAtIndex(configs);
    forall i | FirstMatchAt(configs, i) ensures FindGrpcBtc(configs) == Found(configs[i]) {
      FindFirstMatch(configs, i);
    }
    forall i | NullBeforeMatchAt(configs, i) ensures FindGrpcBtc(configs) == FindThrows {
      FindNullBeforeMatch(configs, i);
    }
  }

  // ---------------------------------------------------------------------
  // Which entries matter

  /** An entry that the predicate skips can be added or removed anywhere
      without changing what `find` returns. */
  lemma {:induction false} FindIgnoresSkipped(a: seq<Json>, x: Json, b: seq<Json>)
    requires Skipped(x)
    ensures FindGrpcBtc(a + [x] + b) == FindGrpcBtc(a + b)
  {
    if a == [] {
      assert a + [x] + b == [x] + b;
      assert ([x] + b)[1..] == b;
      assert a + b == b;
    } else {
      assert (a + [x] + b)[0] == a[0];
      assert (a + [x] + b)[1..] == a[1..] + [x] + b;
      assert (a + b)[0] == a[0];
      assert (a + b)[1..] == a[1..] + b;
      FindIgnoresSkipped(a[1..], x, b);
    }
  }

  /** Once `find` has stopped (on a match or by throwing), the entries that
      follow are never visited. */
  lemma {:induction false} FindIgnoresTail(a: seq<Json>, b: seq<Json>)
    requires !FindGrpcBtc(a).NotFound?
    ensures FindGrpcBtc(a + b) == FindGrpcBtc(a)
  {
    assert a != [];
    assert (a + b)[0] == a[0];
    if a[0] != JNull && !IsGrpcBtc(a[0]) {
      assert (a + b)[1..] == a[1..] + b;
      FindIgnoresTail(a[1..], b);
    }
  }

  // ---------------------------------------------------------------------
  // The verdict

  /** The validator accepts a parsed document exactly when it has a
      `configurations` array whose first grpc/BTC entry (every entry before
      it being skipped) has a truthy host, port and macaroon. */
  lemma ValidIff(doc: Json, btcpayError: string)
    ensures ValidateDocument(Some(doc), btcpayError) == Valid <==>
      match Member(doc, "configurations")
      case None => false
      case Some(c) =>
        c.JArray? && exists i :: FirstMatchAt(c.items, i) && HasEndpoint(c.items[i])
  {
    var c := Configurations(doc);
    if c.JArray? {
      FindGrpcBtcSpec(c.items);
      assert !HasEndpoint(JObject(map[]));
    }
  }

  /** The validator throws exactly when `configurations` is present but not
      an array, or when a `null` entry comes before any grpc/BTC entry. */
  lemma ThrowsIff(doc: Json, btcpayError: string)
    ensures ValidateDocument(Some(doc), btcpayError) == Throws <==>
      match Member(doc, "configurations")
      case None => false
      case Some(c) => !c.JArray? || exists i :: NullBeforeMatchAt(c.items, i)
  {
    var c := Configurations(doc);
    if c.JArray? {
      FindGrpcBtcSpec(c.items);
    }
  }

  /** Text that `JSON.parse` rejects (the empty string among it) gets the
      error message, whatever else holds. */
  lemma UnparsableRejected(parse: string -> Option<Json>, text: string, btcpayError: string)
    requires parse(text) == None
    ensures ValidateConnectionString(parse, text, btcpayError) == Invalid(btcpayError)
  {
  }

  /** A document without `configurations`, or one that is not an object,
      selects `{}` and gets the error message. */
  lemma MissingConfigurationsRejected(doc: Json, btcpayError: string)
    requires Member(doc, "configurations") == None
    ensures ValidateDocument(Some(doc), btcpayError) == Invalid(btcpayError)
  {
  }

  /** Only the first grpc/BTC entry decides: entries after it, however
      complete, do not change the verdict. */
  lemma FirstMatchDecides(fields: map<string, Json>, a: seq<Json>, m: Json, b: seq<Json>, btcpayError: string)
    requires forall j :: 0 <= j < |a| ==> Skipped(a[j])
    requires IsGrpcBtc(m)
    ensures ValidateDocument(Some(JObject(fields["configurations" := JArray(a + [m] + b)])), btcpayError)
            == if HasEndpoint(m) then Valid else Invalid(btcpayError)
  {
    var configs := a + [m] + b;
    assert configs[|a|] == m;
    assert FirstMatchAt(configs, |a|) by {
      forall j | 0 <= j < |a| ensures Skipped(configs[j]) {
        assert configs[j] == a[j];
      }
    }
    FindFirstMatch(configs, |a|);
  }

  /** Entries that are not grpc/BTC (and not `null`) never affect the
      verdict: adding or removing one gives the same result. */
  lemma SkippedEntryIrrelevant(fields: map<string, Json>, a: seq<Json>, x: Json, b: seq<Json>, btcpayError: string)
    requires Skipped(x)
    ensures ValidateDocument(Some(JObject(fields["configurations" := JArray(a + [x] + b)])), btcpayError)
         == ValidateDocument(Some(JObject(fields["configurations" := JArray(a + b)])), btcpayError)
  {
    FindIgnoresSkipped(a, x, b);
  }

  /** A selected entry whose host, port or macaroon is absent, `null`,
      `false`, `""` or `0` is rejected. */
  lemma FalsyEndpointFieldRejected(fields: map<string, Json>, a: seq<Json>, m: Json, b: seq<Json>, key: string, btcpayError: string)
    requires forall j :: 0 <= j < |a| ==> Skipped(a[j])
    requires IsGrpcBtc(m)
    requires key == "host" || key == "port" || key == "macaroon"
    requires key !in m.fields || m.fields[key] in {JNull, JBool(false), JNumber(0.0), JString("")}
    ensures ValidateDocument(Some(JObject(fields["configurations" := JArray(a + [m] + b)])), btcpayError)
            == Invalid(btcpayError)
  {
    FirstMatchDecides(fields, a, m, b, btcpayError);
  }

  /** Documents a BTCPay Server export may hold, and their verdicts: an empty
      list, one complete entry, a complete BTC entry behind an LTC one, and
      a BTC entry with an empty host. */
  lemma ExampleVerdicts(btcpayError: string)
    ensures ValidateDocument(Some(JObject(map["configurations" := JArray([])])), btcpayError)
            == Invalid(btcpayError)
    ensures ValidateDocument(Some(JObject(map["configurations" := JArray([Entry("BTC", "h")])])), btcpayError)
            == Valid
    ensures ValidateDocument(Some(JObject(map["configurations" := JArray([Entry("LTC", "h"), Entry("BTC", "h2")])])), btcpayError)
            == Valid
    ensures ValidateDocument(Some(JObject(map["configurations" := JArray([Entry("BTC", "")])])), btcpayError)
            == Invalid(btcpayError)
  {
  }

  /** A gRPC entry for `cryptoCode` with the given host, port "1" and
      macaroon "m". */
  function Entry(cryptoCode: string, host: string): Json
  {
    JObject(map["type" := JString("grpc"), "cryptoCode" := JString(cryptoCode),
                "host" := JString(host), "port" := JString("1"), "macaroon" := JString("m")])
  }
}
