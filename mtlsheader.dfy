/**
 * The header injector: configuration, construction, the rendering context and
 * the per-request loop that renders every configured header template, sets the
 * results on the request and forwards it to the next handler.
 */
module Plugin {
  import opened Wrappers
  import opened Http

  /** The plugin configuration: header name to template source, and the encode flag. */
  datatype Config = Config(headers: map<string, string>, encodeURL: bool)

  /** The default configuration: no headers, no encoding. */
  function CreateConfig(): (c: Config)
    ensures |c.headers| == 0 && !c.encodeURL
  {
    Config(map[], false)
  }

  const ErrEmptyHeaders: string := "headers cannot be empty"
  const StatusInternalServerError: int := 500

  /**
   * What a template may refer to: the request and the selected peer
   * certificate. The request's header map is not part of what a rendering
   * can read (see the engine below).
   */
  datatype Data = Data(request: Request, cert: Option<Certificate>)

  /**
   * The library code the plugin calls and does not define: compiling a
   * template source (`Template.Parse`), executing a compiled template against
   * the context (`Template.Execute`), and `url.QueryEscape`. These are
   * heap-free functions: a rendering sees the request's fixed metadata and
   * certificate, never the header map the loop is writing to.
   */
  datatype Engine<!T> = Engine(
    parse: string -> Result<T, string>,
    execute: (T, Data) -> Result<string, string>,
    queryEscape: string -> string)

  /** Compiling `source` and running it against `data`; the first error wins. */
  function Render<T>(engine: Engine<T>, source: string, data: Data): (r: Result<string, string>)
    ensures engine.parse(source).Failure? ==> r == Failure(engine.parse(source).error)
    ensures engine.parse(source).Success? ==> r == engine.execute(engine.parse(source).value, data)
  {
    match engine.parse(source)
    case Failure(e) => Failure(e)
    case Success(t) => engine.execute(t, data)
  }

  /** The value stored for a template: the rendering, percent-encoded when the flag is set. */
  function HeaderValue<T>(engine: Engine<T>, source: string, data: Data, encodeURL: bool): (r: Result<string, string>)
    ensures r.Success? <==> Render(engine, source, data).Success?
    ensures r.Failure? ==> r.error == Render(engine, source, data).error
    ensures r.Success? ==> r.value == if encodeURL then engine.queryEscape(Render(engine, source, data).value)
                                     else Render(engine, source, data).value
  {
    match Render(engine, source, data)
    case Failure(e) => Failure(e)
    case Success(s) => Success(if encodeURL then engine.queryEscape(s) else s)
  }

  /** The result of one request: forwarded to `next`, or answered with an error status and body. */
  datatype Outcome = Forwarded | Error(status: int, message: string)

  /** `cert` is the leaf of the peer chain when the request is TLS and the chain is non-empty, otherwise none. */
  predicate SelectsLeaf(tls: Option<ConnectionState>, cert: Option<Certificate>)
  {
    && (cert.Some? <==> tls.Some? && |tls.value.peerCertificates| > 0)
    && (cert.Some? ==> cert.value == tls.value.peerCertificates[0])
  }

  /** The certificate-loading loop of ServeHTTP: takes the first peer certificate and stops. */
  method LoadCertificate(tls: Option<ConnectionState>) returns (cert: Option<Certificate>)
    ensures SelectsLeaf(tls, cert)
  {
    cert := None;
    if tls.Some? && |tls.value.peerCertificates| > 0 {
      var certs := tls.value.peerCertificates;
      for i := 0 to |certs|
        invariant i == 0 && cert == None
      {
        cert := Some(certs[i]);
        break;
      }
    }
  }

  function Elements(s: seq<string>): set<string>
  {
    set k | k in s
  }

  predicate Distinct(s: seq<string>)
  {
    forall i, j :: 0 <= i < j < |s| ==> s[i] != s[j]
  }

  /** `order` visits every key of `keys` exactly once: one possible Go map iteration order. */
  predicate IsEnumeration(order: seq<string>, keys: set<string>)
  {
    Distinct(order) && Elements(order) == keys
  }

  lemma ElementsAppend(a: seq<string>, b: seq<string>)
    ensures Elements(a + b) == Elements(a) + Elements(b)
  {
    assert forall k :: k in a + b <==> k in a || k in b;
  }

  lemma DistinctAppend(a: seq<string>, b: seq<string>)
    requires Distinct(a) && Distinct(b) && Elements(a) !! Elements(b)
    ensures Distinct(a + b)
  {
    forall i, j | 0 <= i < j < |a + b| ensures (a + b)[i] != (a + b)[j] {
      if j < |a| {
      } else if i >= |a| {
        assert (a + b)[i] == b[i - |a|] && (a + b)[j] == b[j - |a|];
      } else {
        assert (a + b)[i] == a[i] && a[i] in Elements(a);
        assert (a + b)[j] == b[j - |a|] && b[j - |a|] in Elements(b);
      }
    }
  }

  /** Some iteration order of `keys`. */
  ghost function Enumerate(keys: set<string>): (order: seq<string>)
    ensures IsEnumeration(order, keys)
    decreases keys
  {
    if keys == {} then []
    else
      var k :| k in keys;
      var rest := Enumerate(keys - {k});
      ElementsAppend([k], rest);
      assert Elements([k]) == {k};
      DistinctAppend([k], rest);
      [k] + rest
  }

  /**
   * `New`: refuses a configuration without headers; otherwise the plugin
   * holds exactly the configured headers, the encode flag and `next`.
   */
  function New(next: Handler, config: Config): (r: Result<MtlsHeader, string>)
    ensures r.Failure? <==> config.headers == map[]
    ensures r.Failure? ==> r.error == ErrEmptyHeaders
    ensures r.Success? ==> r.value.next == next && r.value.headers == config.headers
    ensures r.Success? ==> r.value.encodeURL == config.encodeURL
  {
    if |config.headers| == 0 then Failure(ErrEmptyHeaders)
    else Success(MtlsHeader(next, config.headers, config.encodeURL))
  }

  /** The default configuration is refused until a header is added to it. */
  lemma DefaultConfigRefused(next: Handler)
    ensures New(next, CreateConfig()) == Failure(ErrEmptyHeaders)
  {
  }

  /** A constructed plugin (the Go `MtlsHeader` struct). */
  datatype MtlsHeader = MtlsHeader(next: Handler, headers: map<string, string>, encodeURL: bool)
  {
    /** The value configured header `key` renders to. */
    function Value<T>(engine: Engine<T>, key: string, data: Data): Result<string, string>
      requires key in headers
    {
      HeaderValue(engine, headers[key], data, encodeURL)
    }

    /** Every key of `keys` is configured and its template renders. */
    predicate Renders<T>(keys: set<string>, engine: Engine<T>, data: Data)
    {
      keys <= headers.Keys && forall k :: k in keys ==> Value(engine, k, data).Success?
    }

    /**
     * The position in `order` at which the loop stops: the first key whose
     * template fails to compile or run, or |order| when none does.
     */
    function FirstFailure<T>(order: seq<string>, engine: Engine<T>, data: Data): (i: nat)
      requires Elements(order) <= headers.Keys
      ensures i <= |order|
      ensures forall j :: 0 <= j < i ==> Value(engine, order[j], data).Success?
      ensures i < |order| ==> Value(engine, order[i], data).Failure?
      ensures Renders(Elements(order[..i]), engine, data)
      decreases |order|
    {
      if order == [] || Value(engine, order[0], data).Failure? then 0
      else
        assert Elements(order[1..]) <= Elements(order);
        1 + FirstFailure(order[1..], engine, data)
    }

    /**
     * The request headers after every key in `keys` has been set to its
     * rendered value: those keys hold exactly that one value, all others are
     * as in `h`.
     */
    function Overlay<T>(h: Header, keys: set<string>, engine: Engine<T>, data: Data): Header
      requires Renders(keys, engine, data)
    {
      map k | k in h.Keys + keys :: if k in keys then [Value(engine, k, data).value] else h[k]
    }

    /**
     * What an overlay means for the request: each key of `keys` holds exactly
     * one value, its rendering (percent-encoded when the flag is set), whatever
     * it held before; every other header is as it was.
     */
    lemma OverlayValues<T>(h: Header, keys: set<string>, engine: Engine<T>, data: Data)
      requires Renders(keys, engine, data)
      ensures var r := Overlay(h, keys, engine, data);
        forall k :: k in keys ==>
          && Render(engine, headers[k], data).Success? && k in r
          && r[k] == [if encodeURL then engine.queryEscape(Render(engine, headers[k], data).value)
                      else Render(engine, headers[k], data).value]
      ensures var r := Overlay(h, keys, engine, data);
        forall k :: k !in keys ==> (k in r <==> k in h) && (k in h ==> r[k] == h[k])
    {
    }

    /**
     * When every configured template renders, the loop's stopping point is the
     * end of the enumeration: the request is forwarded and carries every
     * configured header.
     */
    lemma AllForwarded<T>(order: seq<string>, before: Header, after: Header, outcome: Outcome, engine: Engine<T>, data: Data)
      requires IsEnumeration(order, headers.Keys)
      requires var i := FirstFailure(order, engine, data);
        && after == Overlay(before, Elements(order[..i]), engine, data)
        && outcome == if i < |order|
                      then Error(StatusInternalServerError, Value(engine, order[i], data).error)
                      else Forwarded
      requires Renders(headers.Keys, engine, data)
      ensures outcome == Forwarded && after == Overlay(before, headers.Keys, engine, data)
    {
      AllRendered(order, engine, data);
      assert order[..|order|] == order;
    }

    /** The loop gets past every key exactly when every configured template renders. */
    lemma {:induction false} AllRendered<T>(order: seq<string>, engine: Engine<T>, data: Data)
      requires IsEnumeration(order, headers.Keys)
      ensures FirstFailure(order, engine, data) == |order|
          <==> forall k :: k in headers ==> Value(engine, k, data).Success?
    {
      var i := FirstFailure(order, engine, data);
      if i == |order| {
        forall k | k in headers ensures Value(engine, k, data).Success? {
          assert k in Elements(order[..i]) by { assert order[..i] == order; }
        }
      } else {
        assert order[i] in Elements(order);
      }
    }

    /** Running the loop over `a + b` past a failure-free `a` continues with `b`. */
    lemma {:induction false} FirstFailureAppend<T>(a: seq<string>, b: seq<string>, engine: Engine<T>, data: Data)
      requires Elements(a + b) <= headers.Keys
      requires Elements(a) <= headers.Keys && Elements(b) <= headers.Keys
      requires FirstFailure(a, engine, data) == |a|
      ensures FirstFailure(a + b, engine, data) == |a| + FirstFailure(b, engine, data)
      decreases |a|
    {
      if a != [] {
        assert (a + b)[0] == a[0];
        assert (a + b)[1..] == a[1..] + b;
        assert Elements(a[1..]) <= Elements(a);
        FirstFailureAppend(a[1..], b, engine, data);
      } else {
        assert a + b == b;
      }
    }

    /** Setting one more rendered key is one more `Header.Set`. */
    lemma OverlaySet<T>(h: Header, keys: set<string>, key: string, engine: Engine<T>, data: Data)
      requires Renders(keys, engine, data) && key in headers && Value(engine, key, data).Success?
      ensures Renders(keys + {key}, engine, data)
      ensures Overlay(h, keys + {key}, engine, data)
           == Set(Overlay(h, keys, engine, data), key, Value(engine, key, data).value)
    {
    }

    /** A failure-free prefix of keys is one the loop gets past. */
    lemma {:induction false} RendersNoFailure<T>(order: seq<string>, engine: Engine<T>, data: Data)
      requires Renders(Elements(order), engine, data)
      ensures FirstFailure(order, engine, data) == |order|
      decreases |order|
    {
      if order != [] {
        assert order[0] in Elements(order);
        assert Elements(order[1..]) <= Elements(order);
        RendersNoFailure(order[1..], engine, data);
      }
    }

    /** One successful pass of the loop body, from `visited` to `visited + [key]`. */
    lemma Step<T>(h: Header, visited: seq<string>, key: string, engine: Engine<T>, data: Data)
      requires Distinct(visited) && Renders(Elements(visited), engine, data)
      requires key in headers && key !in Elements(visited) && Value(engine, key, data).Success?
      ensures Distinct(visited + [key]) && Elements(visited + [key]) == Elements(visited) + {key}
      ensures Renders(Elements(visited + [key]), engine, data)
      ensures Overlay(h, Elements(visited + [key]), engine, data)
           == Set(Overlay(h, Elements(visited), engine, data), key, Value(engine, key, data).value)
    {
      ElementsAppend(visited, [key]);
      assert Elements([key]) == {key};
      DistinctAppend(visited, [key]);
      OverlaySet(h, Elements(visited), key, engine, data);
    }

    /**
     * Setting the rendered headers a second time changes nothing: in this
     * model a rendering reads the request's metadata and certificate, not
     * its header map.
     */
    lemma OverlayIdempotent<T>(h: Header, keys: set<string>, engine: Engine<T>, data: Data)
      requires Renders(keys, engine, data)
      ensures Overlay(Overlay(h, keys, engine, data), keys, engine, data) == Overlay(h, keys, engine, data)
    {
    }

    /**
     * The iteration order does not matter on success: any two orders of the
     * configured keys both succeed or both fail, and on success leave the
     * same headers. This rests on renderings not reading the header map.
     */
    lemma OrderIrrelevant<T>(h: Header, o1: seq<string>, o2: seq<string>, engine: Engine<T>, data: Data)
      requires IsEnumeration(o1, headers.Keys) && IsEnumeration(o2, headers.Keys)
      ensures (FirstFailure(o1, engine, data) == |o1|) == (FirstFailure(o2, engine, data) == |o2|)
      ensures FirstFailure(o1, engine, data) == |o1| ==>
        assert o1[..|o1|] == o1 && o2[..|o2|] == o2;
        Overlay(h, Elements(o1[..|o1|]), engine, data) == Overlay(h, Elements(o2[..|o2|]), engine, data)
    {
      AllRendered(o1, engine, data);
      AllRendered(o2, engine, data);
      assert o1[..|o1|] == o1 && o2[..|o2|] == o2;
    }

    /**
     * When the loop stops at position `i` of a duplicate-free order, the keys
     * visited before `i` hold their one rendered value, and the keys from `i`
     * on (the failing one and those never reached) keep the values they had
     * before.
     */
    lemma {:induction false} Unvisited<T>(h: Header, order: seq<string>, engine: Engine<T>, data: Data)
      requires IsEnumeration(order, headers.Keys)
      ensures var i := FirstFailure(order, engine, data);
        var r := Overlay(h, Elements(order[..i]), engine, data);
        forall k :: k in Elements(order[..i]) ==> k in r && r[k] == [Value(engine, k, data).value]
      ensures var i := FirstFailure(order, engine, data);
        var r := Overlay(h, Elements(order[..i]), engine, data);
        forall j :: i <= j < |order| ==>
          (order[j] in r <==> order[j] in h) && (order[j] in h ==> r[order[j]] == h[order[j]])
    {
      var i := FirstFailure(order, engine, data);
      forall j | i <= j < |order| ensures order[j] !in Elements(order[..i]) {
      }
    }

    /**
     * When exactly one configured template fails, the loop stops at that key
     * whatever the iteration order: the answer carries its error, and the
     * key itself keeps the value it had before.
     */
    lemma SoleFailure<T>(order: seq<string>, before: Header, after: Header, outcome: Outcome,
                         key: string, engine: Engine<T>, data: Data)
      requires IsEnumeration(order, headers.Keys)
      requires var i := FirstFailure(order, engine, data);
        && after == Overlay(before, Elements(order[..i]), engine, data)
        && outcome == if i < |order|
                      then Error(StatusInternalServerError, Value(engine, order[i], data).error)
                      else Forwarded
      requires key in headers && Value(engine, key, data).Failure?
      requires forall k :: k in headers && k != key ==> Value(engine, k, data).Success?
      ensures outcome == Error(StatusInternalServerError, Value(engine, key, data).error)
      ensures after.Keys <= before.Keys + (headers.Keys - {key})
      ensures (key in after <==> key in before) && (key in before ==> after[key] == before[key])
    {
      var i := FirstFailure(order, engine, data);
      assert order[..|order|] == order;
      assert key in Elements(order);
      assert i < |order| && order[i] == key;
      Unvisited(before, order, engine, data);
    }

    /**
     * `ServeHTTP`: selects the leaf certificate, then renders, optionally
     * encodes and sets every configured header. The first compile or
     * execution failure ends the request with a 500 and its error text,
     * leaving the headers set so far and never calling `next`; otherwise
     * every configured header holds its one rendered value and the request
     * is handed to `next` exactly once.
     */
    method ServeHTTP<T>(req: Request, engine: Engine<T>)
      returns (outcome: Outcome, ghost data: Data, ghost order: seq<string>)
      modifies req, next
      ensures data.request == req && SelectsLeaf(req.tls, data.cert)
      ensures IsEnumeration(order, headers.Keys)
      ensures var i := FirstFailure(order, engine, data);
        && req.header == Overlay(old(req.header), Elements(order[..i]), engine, data)
        && outcome == if i < |order|
                      then Error(StatusInternalServerError, Value(engine, order[i], data).error)
                      else Forwarded
      ensures outcome.Forwarded? <==> forall k :: k in headers ==> Value(engine, k, data).Success?
      ensures next.received == old(next.received) + if outcome.Forwarded? then [Delivery(req, req.header)] else []
    {
      var cert := LoadCertificate(req.tls);
      var d := Data(req, cert);
      data := d;
      var failure;
      failure, order := SetHeaders(req, engine, d);
      AllRendered(order, engine, data);
      if failure.Some? {
        outcome := Error(StatusInternalServerError, failure.value);
        return;
      }
      next.ServeHTTP(req);
      outcome := Forwarded;
    }

    /**
     * The header loop of `ServeHTTP`: visits the configured headers in some
     * order (Go leaves map order unspecified) and stops at the first template
     * that fails to compile or run, reporting its error; every header visited
     * before it has been set to its one rendered value.
     */
    method SetHeaders<T>(req: Request, engine: Engine<T>, data: Data)
      returns (failure: Option<string>, ghost order: seq<string>)
      modifies req
      ensures IsEnumeration(order, headers.Keys)
      ensures var i := FirstFailure(order, engine, data);
        && req.header == Overlay(old(req.header), Elements(order[..i]), engine, data)
        && failure == if i < |order| then Some(Value(engine, order[i], data).error) else None
    {
      var remaining := headers.Keys;
      ghost var visited: seq<string> := [];
      while remaining != {}
        invariant remaining <= headers.Keys
        invariant Distinct(visited) && Elements(visited) !! remaining
        invariant Elements(visited) + remaining == headers.Keys
        invariant Renders(Elements(visited), engine, data)
        invariant req.header == Overlay(old(req.header), Elements(visited), engine, data)
        decreases remaining
      {
        var key :| key in remaining;
        remaining := remaining - {key};
        var tmpl := engine.parse(headers[key]);
        if tmpl.Failure? {
          assert Value(engine, key, data) == Failure(tmpl.error);
          failure := Some(tmpl.error);
          order := StopOrder(visited, key, remaining, engine, data);
          return;
        }
        var rendered := engine.execute(tmpl.value, data);
        if rendered.Failure? {
          assert Value(engine, key, data) == Failure(rendered.error);
          failure := Some(rendered.error);
          order := StopOrder(visited, key, remaining, engine, data);
          return;
        }
        assert Value(engine, key, data)
            == Success(if encodeURL then engine.queryEscape(rendered.value) else rendered.value);
        Step(old(req.header), visited, key, engine, data);
        if encodeURL {
          req.header := Set(req.header, key, engine.queryEscape(rendered.value));
        } else {
          req.header := Set(req.header, key, rendered.value);
        }
        visited := visited + [key];
      }
      DoneOrder(visited, engine, data);
      order := visited;
      failure := None;
    }

    /**
     * The full iteration order when the loop stops at `key`: the keys already
     * set, the failing key, then the keys never reached, in some order.
     */
    lemma StopOrder<T>(visited: seq<string>, key: string, remaining: set<string>, engine: Engine<T>,  data: Data)
      returns (order: seq<string>)
      requires Distinct(visited) && key !in Elements(visited) && key !in remaining
      requires Elements(visited) !! remaining
      requires Elements(visited) + {key} + remaining == headers.Keys
      requires Renders(Elements(visited), engine, data)
      requires Value(engine, key, data).Failure?
      ensures IsEnumeration(order, headers.Keys)
      ensures var i := FirstFailure(order, engine, data);
        && i == |visited| < |order| && order[i] == key
        && Elements(order[..i]) == Elements(visited)
    {
      RendersNoFailure(visited, engine, data);
      var tail := [key] + Enumerate(remaining);
      ElementsAppend([key], Enumerate(remaining));
      assert Elements([key]) == {key};
      DistinctAppend([key], Enumerate(remaining));
      ElementsAppend(visited, tail);
      DistinctAppend(visited, tail);
      FirstFailureAppend(visited, tail, engine, data);
      order := visited + tail;
      assert order[..|visited|] == visited;
      assert order[|visited|] == key;
    }

    /** The iteration order when the loop has visited every key. */
    lemma DoneOrder<T>(visited: seq<string>, engine: Engine<T>, data: Data)
      requires Distinct(visited) && Elements(visited) == headers.Keys
      requires Renders(Elements(visited), engine, data)
      ensures IsEnumeration(visited, headers.Keys)
      ensures FirstFailure(visited, engine, data) == |visited|
      ensures Elements(visited[..|visited|]) == headers.Keys
    {
      RendersNoFailure(visited, engine, data);
      assert visited[..|visited|] == visited;
    }
  }
}
