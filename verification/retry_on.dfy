/**
 * The retry-on policy in the style of Envoy's router retry policy: four conditions and a list
 * of extra status codes, parsed from a comma-separated string, and the checks that decide
 * whether a response or a transport error is worth a retry.
 */
module RetryOn {
  import opened Wrappers
  import opened StringUtil

  datatype On = On(fiveXX: bool, gatewayError: bool, connectFailure: bool, retriable4xx: bool, statusCodes: seq<int>)

  /** NewDefaultRetryOn: gateway-error, connect-failure and retriable-4xx, no 5xx, no extra codes. */
  const Default: On := On(false, true, true, true, [])

  predicate IsKeyword(token: string)
  {
    token == "5xx" || token == "gateway-error" || token == "connect-failure" || token == "retriable-4xx"
  }

  /** A token the parser accepts: a keyword, or what strconv.Atoi reads as an integer. */
  predicate ValidToken(token: string)
  {
    IsKeyword(token) || Atoi(token).Ok?
  }

  /** The integers of the tokens that are not keywords, in order. */
  function Codes(tokens: seq<string>): seq<int>
  {
    if |tokens| == 0 then []
    else
      var last := tokens[|tokens| - 1];
      Codes(tokens[..|tokens| - 1]) + (if IsKeyword(last) then [] else match Atoi(last) case Ok(v) => [v] case Err(_) => [])
  }

  /** The policy the tokens describe: each condition on when its keyword occurs, and the integers. */
  function Parsed(tokens: seq<string>): On
  {
    On("5xx" in tokens, "gateway-error" in tokens, "connect-failure" in tokens, "retriable-4xx" in tokens, Codes(tokens))
  }

  lemma ParsedSnoc(tokens: seq<string>, token: string)
    ensures Parsed(tokens + [token]) ==
            var o := Parsed(tokens);
            if token == "5xx" then o.(fiveXX := true)
            else if token == "gateway-error" then o.(gatewayError := true)
            else if token == "connect-failure" then o.(connectFailure := true)
            else if token == "retriable-4xx" then o.(retriable4xx := true)
            else match Atoi(token) case Ok(v) => o.(statusCodes := o.statusCodes + [v]) case Err(_) => o
  {
    assert (tokens + [token])[..|tokens|] == tokens;
  }

  /**
   * NewRetryOnFromString: splits on ",", sets the condition of each keyword and appends each
   * integer token; the first token that is neither is reported as an error.
   */
  method NewRetryOnFromString(s: string) returns (r: Result<On>)
    ensures var tokens := Split(s, ',');
            r.Ok? <==> forall i :: 0 <= i < |tokens| ==> ValidToken(tokens[i])
    ensures r.Ok? ==> r.value == Parsed(Split(s, ','))
    ensures r.Err? ==> var tokens := Split(s, ',');
              exists i :: 0 <= i < |tokens| && !ValidToken(tokens[i]) && r.msg == "invalid retryOn: " + tokens[i] &&
                forall j :: 0 <= j < i ==> ValidToken(tokens[j])
  {
    var tokens := Split(s, ',');
    var o := On(false, false, false, false, []);
    var i := 0;
    while i < |tokens|
      invariant 0 <= i <= |tokens|
      invariant forall j :: 0 <= j < i ==> ValidToken(tokens[j])
      invariant o == Parsed(tokens[..i])
    {
      var token := tokens[i];
      ParsedSnoc(tokens[..i], token);
      TakeSnoc(tokens, i);
      if token == "5xx" {
        o := o.(fiveXX := true);
      } else if token == "gateway-error" {
        o := o.(gatewayError := true);
      } else if token == "connect-failure" {
        o := o.(connectFailure := true);
      } else if token == "retriable-4xx" {
        o := o.(retriable4xx := true);
      } else {
        var code := Atoi(token);
        if code.Err? {
          assert !ValidToken(tokens[i]);
          r := Err("invalid retryOn: " + token);
          assert r.Ok? <==> forall j :: 0 <= j < |tokens| ==> ValidToken(tokens[j]);
          assert tokens == Split(s, ',');
          return;
        }
        o := o.(statusCodes := o.statusCodes + [code.value]);
      }
      i := i + 1;
    }
    TakeAll(tokens);
    r := Ok(o);
  }

  lemma TakeSnoc<T>(s: seq<T>, i: nat)
    requires i < |s|
    ensures s[..i + 1] == s[..i] + [s[i]]
  {
  }

  lemma TakeAll<T>(s: seq<T>)
    ensures s[..|s|] == s
  {
  }

  /** An empty token, from an empty string, a doubled comma or a comma at either end, is rejected. */
  lemma EmptyTokenRejected(s: string)
    ensures s == [] ==> Split(s, ',') == [[]]
    ensures [] in Split(s, ',') ==> exists i :: 0 <= i < |Split(s, ',')| && !ValidToken(Split(s, ',')[i])
  {
    var tokens := Split(s, ',');
    if [] in tokens {
      var i :| 0 <= i < |tokens| && tokens[i] == [];
      assert !ValidToken(tokens[i]);
    }
  }

  /** The status codes are the integer tokens: each one is the value of a token that is not a keyword. */
  lemma {:induction false} CodesAreIntegerTokens(tokens: seq<string>, c: int)
    ensures c in Codes(tokens) <==> exists i :: 0 <= i < |tokens| && !IsKeyword(tokens[i]) && Atoi(tokens[i]) == Ok(c)
  {
    if |tokens| > 0 {
      var init := tokens[..|tokens| - 1];
      CodesAreIntegerTokens(init, c);
      if exists i :: 0 <= i < |tokens| && !IsKeyword(tokens[i]) && Atoi(tokens[i]) == Ok(c) {
        var i :| 0 <= i < |tokens| && !IsKeyword(tokens[i]) && Atoi(tokens[i]) == Ok(c);
        if i < |init| {
          assert init[i] == tokens[i];
        }
      }
      if c in Codes(init) {
        var i :| 0 <= i < |init| && !IsKeyword(init[i]) && Atoi(init[i]) == Ok(c);
        assert tokens[i] == init[i];
      }
    }
  }

  /** Parsing the three default keywords gives the default policy. */
  lemma DefaultKeywords()
    ensures Parsed(["gateway-error", "connect-failure", "retriable-4xx"]) == Default
  {
    var parts := ["gateway-error", "connect-failure", "retriable-4xx"];
    assert Codes(parts[..1]) == [] by {
      assert parts[..1][..0] == [];
    }
    assert Codes(parts[..2]) == [] by {
      assert parts[..2][..1] == parts[..1];
    }
    assert parts[..|parts| - 1] == parts[..2];
  }

  // ---------------------------------------------------------------- CheckResponse

  /** The response check: a 5xx code under 5xx, 502-504 under gateway-error, 409 under retriable-4xx, or a listed code. */
  predicate RetriableStatus(o: On, code: int)
  {
    (o.fiveXX && 500 <= code < 600) || (o.gatewayError && 502 <= code < 505) || (o.retriable4xx && code == 409) ||
    code in o.statusCodes
  }

  /** CheckResponse: the three conditions, then a scan of the extra codes. */
  method CheckResponse(o: On, code: int) returns (retry: bool)
    ensures retry == RetriableStatus(o, code)
  {
    if (o.fiveXX && code >= 500 && code < 600) || (o.gatewayError && code >= 502 && code < 505) ||
       (o.retriable4xx && code == 409) {
      return true;
    }
    var k := 0;
    while k < |o.statusCodes|
      invariant 0 <= k <= |o.statusCodes|
      invariant code !in o.statusCodes[..k]
    {
      if o.statusCodes[k] == code {
        return true;
      }
      assert o.statusCodes[..k + 1] == o.statusCodes[..k] + [o.statusCodes[k]];
      k := k + 1;
    }
    assert o.statusCodes[..k] == o.statusCodes;
    return false;
  }

  /** The default policy retries exactly 409, 502, 503 and 504. */
  lemma DefaultStatuses(code: int)
    ensures RetriableStatus(Default, code) <==> code == 409 || code == 502 || code == 503 || code == 504
  {
  }

  /** 5xx covers gateway-error: with 5xx on, adding gateway-error retries no further code. */
  lemma FiveXXCoversGateway(o: On, code: int)
    requires o.fiveXX
    ensures RetriableStatus(o.(gatewayError := true), code) <==> RetriableStatus(o, code)
  {
  }

  /** The response-check tests: one keyword or one code per policy. */
  lemma CheckResponseExamples()
    ensures RetriableStatus(Parsed(["5xx"]), 500) && !RetriableStatus(Parsed(["5xx"]), 404)
    ensures RetriableStatus(Parsed(["gateway-error"]), 502) && !RetriableStatus(Parsed(["gateway-error"]), 500)
    ensures RetriableStatus(Parsed(["retriable-4xx"]), 409) && !RetriableStatus(Parsed(["retriable-4xx"]), 404)
    ensures RetriableStatus(Parsed(["500"]), 500) && !RetriableStatus(Parsed(["500"]), 404)
  {
    assert Atoi("500") == Ok(500) by {
      assert "500"[..2] == "50" && "50"[..1] == "5" && "5"[..0] == [];
      assert DecimalValue("500") == 500;
    }
    assert Codes(["500"]) == [500] by {
      assert ["500"][..0] == [];
    }
    assert Codes(["5xx"]) == [] && Codes(["gateway-error"]) == [] && Codes(["retriable-4xx"]) == [] by {
      assert ["5xx"][..0] == [] && ["gateway-error"][..0] == [] && ["retriable-4xx"][..0] == [];
    }
  }

  // ---------------------------------------------------------------- CheckError

  /** Transport errors: temporary ones, end of file, and the rest. */
  datatype Failure = Temporary | EndOfFile | OtherError

  /** CheckError: a temporary error or end of file, under connect-failure or 5xx. */
  predicate RetriableError(o: On, err: Failure)
  {
    (err.Temporary? || err.EndOfFile?) && (o.connectFailure || o.fiveXX)
  }

  /** The error-check tests: 5xx and connect-failure retry EOF and temporary errors, nothing else does. */
  lemma CheckErrorExamples()
    ensures RetriableError(Parsed(["5xx"]), EndOfFile) && RetriableError(Parsed(["5xx"]), Temporary)
    ensures !RetriableError(Parsed(["5xx"]), OtherError)
    ensures RetriableError(Parsed(["connect-failure"]), EndOfFile) && RetriableError(Parsed(["connect-failure"]), Temporary)
    ensures !RetriableError(Parsed(["connect-failure"]), OtherError)
    ensures !RetriableError(Parsed(["gateway-error"]), EndOfFile) && !RetriableError(Parsed(["gateway-error"]), Temporary)
  {
  }

  /** Whatever the policy, an error that is neither temporary nor end of file is never retried. */
  lemma OtherErrorsFinal(o: On)
    ensures !RetriableError(o, OtherError)
  {
  }
}
