/**
 * The repository's end-to-end scenario: four headers, three read from the
 * request and one from the client certificate, rendered for a GET request to
 * http://localhost that presents a one-certificate chain.
 */
module MtlsHeaderTest {
  import opened Wrappers
  import opened Http
  import opened Plugin
  import Template

  /** The test client certificate: subject CN `mtls_client`, issuer CN `test_ca`, serial 0x417c5e1f5bccfad6. */
  const ClientCert: Certificate := Certificate(Name("mtls_client"), Name("test_ca"), "4718749998354594518")

  const TestHeaders: map<string, string> :=
    map["X-Host" := "[[.Request.Host]]",
        "X-Method" := "[[.Request.Method]]",
        "X-URL" := "[[.Request.URL]]",
        "X-Client-CN" := "CN=[[.Cert.Subject.CommonName]]"]

  /** What the test expects on the request once the plugin has run. */
  const ExpectedHeader: Header :=
    map["X-Host" := ["localhost"],
        "X-Method" := ["GET"],
        "X-URL" := ["http://localhost"],
        "X-Client-CN" := ["CN=mtls_client"]]

  /** `.a.b` names the two-step chain `a`, `b`. */
  lemma Chain2(a: string, b: string)
    requires Template.IsIdent(a) && '.' !in a
    requires Template.IsIdent(b) && '.' !in b && !Template.IsSpace(b[|b| - 1])
    ensures Template.FieldPath("." + a + "." + b) == Some([a, b])
  {
    assert [a] + [b] == [a, b];
    assert "." + a + "." + b == "." + (a + "." + b);
    Template.PathLast(b);
    Template.PathNext(a, b, [b]);
    Template.FieldPathOf(a + "." + b);
  }

  /** `.a.b.c` names the three-step chain `a`, `b`, `c`. */
  lemma Chain3(a: string, b: string, c: string)
    requires Template.IsIdent(a) && '.' !in a && Template.IsIdent(b) && '.' !in b
    requires Template.IsIdent(c) && '.' !in c && !Template.IsSpace(c[|c| - 1])
    ensures Template.FieldPath("." + a + "." + b + "." + c) == Some([a, b, c])
  {
    assert [b] + [c] == [b, c];
    assert [a] + [b, c] == [a, b, c];
    assert a + "." + (b + "." + c) == a + "." + b + "." + c;
    assert "." + a + "." + b + "." + c == "." + (a + "." + b + "." + c);
    Template.PathLast(c);
    Template.PathNext(b, c, [c]);
    Template.PathNext(a, b + "." + c, [b, c]);
    Template.FieldPathOf(a + "." + b + "." + c);
  }

  lemma HostPath()
    ensures Template.FieldPath(".Request.Host") == Some(["Request", "Host"])
  {
    assert ".Request.Host" == "." + "Request" + "." + "Host";
    Chain2("Request", "Host");
  }

  /** `[[.Request.Host]]` compiles to the field action naming the request host. */
  lemma ParseHost()
    ensures Template.Parse("[[.Request.Host]]") == Success([Template.Field(".Request.Host", ["Request", "Host"])])
  {
    assert "[[.Request.Host]]" == Template.LeftDelim + ".Request.Host" + Template.RightDelim;
    assert Template.Free(".Request.Host", Template.RightDelim) && !Template.EndsWith(".Request.Host", ']');
    HostPath();
    Template.ParseOneField(".Request.Host", ["Request", "Host"]);
  }

  lemma MethodPath()
    ensures Template.FieldPath(".Request.Method") == Some(["Request", "Method"])
  {
    assert ".Request.Method" == "." + "Request" + "." + "Method";
    Chain2("Request", "Method");
  }

  /** `[[.Request.Method]]` compiles to the field action naming the request method. */
  lemma ParseMethod()
    ensures Template.Parse("[[.Request.Method]]") == Success([Template.Field(".Request.Method", ["Request", "Method"])])
  {
    assert "[[.Request.Method]]" == Template.LeftDelim + ".Request.Method" + Template.RightDelim;
    assert Template.Free(".Request.Method", Template.RightDelim) && !Template.EndsWith(".Request.Method", ']');
    MethodPath();
    Template.ParseOneField(".Request.Method", ["Request", "Method"]);
  }

  lemma UrlPath()
    ensures Template.FieldPath(".Request.URL") == Some(["Request", "URL"])
  {
    assert ".Request.URL" == "." + "Request" + "." + "URL";
    Chain2("Request", "URL");
  }

  /** `[[.Request.URL]]` compiles to the field action naming the request URL. */
  lemma ParseUrl()
    ensures Template.Parse("[[.Request.URL]]") == Success([Template.Field(".Request.URL", ["Request", "URL"])])
  {
    assert "[[.Request.URL]]" == Template.LeftDelim + ".Request.URL" + Template.RightDelim;
    assert Template.Free(".Request.URL", Template.RightDelim) && !Template.EndsWith(".Request.URL", ']');
    UrlPath();
    Template.ParseOneField(".Request.URL", ["Request", "URL"]);
  }

  lemma CommonNameChain()
    ensures ".Cert.Subject.CommonName" == "." + "Cert" + "." + "Subject" + "." + "CommonName"
  {
  }

  lemma CommonNamePath()
    ensures Template.FieldPath(".Cert.Subject.CommonName") == Some(["Cert", "Subject", "CommonName"])
  {
    CommonNameChain();
    Chain3("Cert", "Subject", "CommonName");
  }

  lemma CommonNameText()
    ensures "CN=[[.Cert.Subject.CommonName]]" == "CN=" + "[[.Cert.Subject.CommonName]]"
  {
  }

  lemma CommonNameField()
    ensures "[[.Cert.Subject.CommonName]]" == Template.LeftDelim + ".Cert.Subject.CommonName" + Template.RightDelim
  {
  }

  lemma CommonNameSource()
    ensures "CN=[[.Cert.Subject.CommonName]]" == "CN=" + Template.LeftDelim + ".Cert.Subject.CommonName" + Template.RightDelim
  {
    CommonNameText();
    CommonNameField();
    var a, b := Template.LeftDelim, Template.RightDelim;
    var c := ".Cert.Subject.CommonName";
    assert "CN=" + (a + c + b) == "CN=" + a + c + b;
  }

  /** `CN=[[.Cert.Subject.CommonName]]` compiles to the literal `CN=` and the subject common name. */
  lemma ParseCommonName()
    ensures Template.Parse("CN=[[.Cert.Subject.CommonName]]")
         == Success([Template.Text("CN="),
                     Template.Field(".Cert.Subject.CommonName", ["Cert", "Subject", "CommonName"])])
  {
    CommonNameSource();
    assert Template.Free("CN=", Template.LeftDelim) && !Template.EndsWith("CN=", '[');
    assert Template.Free(".Cert.Subject.CommonName", Template.RightDelim);
    assert !Template.EndsWith(".Cert.Subject.CommonName", ']');
    CommonNamePath();
    Template.ParseTextField("CN=", ".Cert.Subject.CommonName", ["Cert", "Subject", "CommonName"]);
  }

  /** A program that is one field action executes to that field's value. */
  lemma ExecuteOneField(source: string, path: seq<string>, data: Data)
    requires Template.Lookup(path, data).Success?
    ensures Template.Execute([Template.Field(source, path)], data) == Template.Lookup(path, data)
  {
    var p := [Template.Field(source, path)];
    assert p[1..] == [];
    var v := Template.Lookup(path, data).value;
    assert v + [] == v;
  }

  /** A program of literal text and one field action executes to the text followed by the field's value. */
  lemma ExecuteTextField(t: string, source: string, path: seq<string>, data: Data)
    requires Template.Lookup(path, data).Success?
    ensures Template.Execute([Template.Text(t), Template.Field(source, path)], data)
         == Success(t + Template.Lookup(path, data).value)
  {
    var p := [Template.Text(t), Template.Field(source, path)];
    assert p[1..] == [Template.Field(source, path)];
    ExecuteOneField(source, path, data);
  }

  /** Literal text followed by a field action that fails executes to the field's error. */
  lemma ExecuteTextFieldFails(t: string, source: string, path: seq<string>, data: Data)
    requires Template.Lookup(path, data).Failure?
    ensures Template.Execute([Template.Text(t), Template.Field(source, path)], data) == Template.Lookup(path, data)
  {
    var p := [Template.Text(t), Template.Field(source, path)];
    assert p[1..] == [Template.Field(source, path)];
  }

  lemma ClientCommonName()
    ensures "CN=" + ClientCert.subject.commonName == "CN=mtls_client"
  {
  }

  lemma HostValue(h: MtlsHeader, queryEscape: string -> string, data: Data)
    requires h.headers == TestHeaders && !h.encodeURL && data.request.host == "localhost"
    ensures h.Value(Template.Engine(queryEscape), "X-Host", data) == Success("localhost")
  {
    assert h.headers["X-Host"] == "[[.Request.Host]]";
    ParseHost();
    ExecuteOneField(".Request.Host", ["Request", "Host"], data);
  }

  lemma MethodValue(h: MtlsHeader, queryEscape: string -> string, data: Data)
    requires h.headers == TestHeaders && !h.encodeURL && data.request.httpMethod == "GET"
    ensures h.Value(Template.Engine(queryEscape), "X-Method", data) == Success("GET")
  {
    assert h.headers["X-Method"] == "[[.Request.Method]]";
    ParseMethod();
    ExecuteOneField(".Request.Method", ["Request", "Method"], data);
  }

  lemma UrlValue(h: MtlsHeader, queryEscape: string -> string, data: Data)
    requires h.headers == TestHeaders && !h.encodeURL && data.request.url == "http://localhost"
    ensures h.Value(Template.Engine(queryEscape), "X-URL", data) == Success("http://localhost")
  {
    assert h.headers["X-URL"] == "[[.Request.URL]]";
    ParseUrl();
    ExecuteOneField(".Request.URL", ["Request", "URL"], data);
  }

  lemma CommonNameValue(h: MtlsHeader, queryEscape: string -> string, data: Data)
    requires h.headers == TestHeaders && !h.encodeURL && data.cert == Some(ClientCert)
    ensures h.Value(Template.Engine(queryEscape), "X-Client-CN", data) == Success("CN=mtls_client")
  {
    assert h.headers["X-Client-CN"] == "CN=[[.Cert.Subject.CommonName]]";
    ParseCommonName();
    ExecuteTextField("CN=", ".Cert.Subject.CommonName", ["Cert", "Subject", "CommonName"], data);
    ClientCommonName();
  }

  /** Without a peer certificate the client common-name header fails to render. */
  lemma CommonNameMissing(h: MtlsHeader, queryEscape: string -> string, data: Data)
    requires h.headers == TestHeaders && !h.encodeURL && data.cert == None
    ensures h.Value(Template.Engine(queryEscape), "X-Client-CN", data) == Failure(Template.ErrNoCertificate)
  {
    assert h.headers["X-Client-CN"] == "CN=[[.Cert.Subject.CommonName]]";
    ParseCommonName();
    ExecuteTextFieldFails("CN=", ".Cert.Subject.CommonName", ["Cert", "Subject", "CommonName"], data);
  }

  /** Of four headers whose first three render, only the fourth fails. */
  lemma LastFails<T>(h: MtlsHeader, engine: Engine<T>, data: Data, k1: string, k2: string, k3: string, k4: string)
    requires h.headers.Keys == {k1, k2, k3, k4}
    requires h.Value(engine, k1, data).Success? && h.Value(engine, k2, data).Success?
    requires h.Value(engine, k3, data).Success?
    ensures forall k :: k in h.headers && k != k4 ==> h.Value(engine, k, data).Success?
  {
  }

  /** Without a peer certificate, the three request headers render and the common-name header does not. */
  lemma OnlyCommonNameFails(h: MtlsHeader, queryEscape: string -> string, data: Data)
    requires h.headers == TestHeaders && !h.encodeURL
    requires data.request.httpMethod == "GET" && data.request.host == "localhost"
    requires data.request.url == "http://localhost" && data.cert == None
    ensures "X-Client-CN" in h.headers
    ensures h.Value(Template.Engine(queryEscape), "X-Client-CN", data) == Failure(Template.ErrNoCertificate)
    ensures forall k :: k in h.headers && k != "X-Client-CN" ==> h.Value(Template.Engine(queryEscape), k, data).Success?
  {
    HostValue(h, queryEscape, data);
    MethodValue(h, queryEscape, data);
    UrlValue(h, queryEscape, data);
    CommonNameMissing(h, queryEscape, data);
    LastFails(h, Template.Engine(queryEscape), data, "X-Host", "X-Method", "X-URL", "X-Client-CN");
  }

  /** Four headers that all render overlay an empty header map with exactly their four values. */
  lemma OverlayFour<T>(h: MtlsHeader, engine: Engine<T>, data: Data,
                       k1: string, k2: string, k3: string, k4: string,
                       v1: string, v2: string, v3: string, v4: string)
    requires h.headers.Keys == {k1, k2, k3, k4}
    requires h.Value(engine, k1, data) == Success(v1) && h.Value(engine, k2, data) == Success(v2)
    requires h.Value(engine, k3, data) == Success(v3) && h.Value(engine, k4, data) == Success(v4)
    ensures h.Renders(h.headers.Keys, engine, data)
    ensures h.Overlay(map[], h.headers.Keys, engine, data) == map[k1 := [v1], k2 := [v2], k3 := [v3], k4 := [v4]]
  {
    assert h.Renders(h.headers.Keys, engine, data);
    var o := h.Overlay(map[], h.headers.Keys, engine, data);
    var e := map[k1 := [v1], k2 := [v2], k3 := [v3], k4 := [v4]];
    assert o.Keys == e.Keys;
    forall k | k in o.Keys ensures o[k] == e[k] {
    }
  }

  /** Every configured header of the test renders, to the value the test expects. */
  lemma TestRendered(h: MtlsHeader, queryEscape: string -> string, data: Data)
    requires h.headers == TestHeaders && !h.encodeURL
    requires data.request.httpMethod == "GET" && data.request.host == "localhost"
    requires data.request.url == "http://localhost" && data.cert == Some(ClientCert)
    ensures h.Renders(h.headers.Keys, Template.Engine(queryEscape), data)
    ensures h.Overlay(map[], h.headers.Keys, Template.Engine(queryEscape), data) == ExpectedHeader
  {
    HostValue(h, queryEscape, data);
    MethodValue(h, queryEscape, data);
    UrlValue(h, queryEscape, data);
    CommonNameValue(h, queryEscape, data);
    OverlayFour(h, Template.Engine(queryEscape), data, "X-Host", "X-Method", "X-URL", "X-Client-CN",
                "localhost", "GET", "http://localhost", "CN=mtls_client");
  }

  /**
   * The repository's `TestMtlsHeader`: the default configuration with four
   * headers, a fresh request to http://localhost carrying the client
   * certificate, one pass of the plugin. The request is forwarded once and
   * carries exactly the four expected single-valued headers.
   */
  method TestMtlsHeader(queryEscape: string -> string) returns (outcome: Outcome, header: Header, received: seq<Delivery>)
    ensures outcome == Forwarded
    ensures header == ExpectedHeader
    ensures |received| == 1 && received[0].header == ExpectedHeader
  {
    var config := CreateConfig();
    config := config.(headers := config.headers["X-Host" := "[[.Request.Host]]"]
                                               ["X-Method" := "[[.Request.Method]]"]
                                               ["X-URL" := "[[.Request.URL]]"]
                                               ["X-Client-CN" := "CN=[[.Cert.Subject.CommonName]]"]);
    assert config.headers == TestHeaders;
    var next := new Handler();
    var created := New(next, config);
    var handler := created.value;
    var req := new Request("GET", "localhost", "http://localhost", Some(ConnectionState([ClientCert])), map[]);
    var engine := Template.Engine(queryEscape);
    ghost var data, order;
    ghost var before := req.header;
    outcome, data, order := handler.ServeHTTP(req, engine);
    TestRendered(handler, queryEscape, data);
    handler.AllForwarded(order, before, req.header, outcome, engine, data);
    header := req.header;
    received := next.received;
  }

  /**
   * The same configuration and request without a TLS connection state: in
   * every iteration order the plugin answers 500 with the missing-certificate
   * error, leaves the common-name header unset and does not call `next`.
   */
  method TestWithoutCertificate(queryEscape: string -> string) returns (outcome: Outcome, header: Header, received: seq<Delivery>)
    ensures outcome == Error(StatusInternalServerError, Template.ErrNoCertificate)
    ensures "X-Client-CN" !in header && header.Keys <= {"X-Host", "X-Method", "X-URL"}
    ensures received == []
  {
    var config := CreateConfig().(headers := TestHeaders);
    var next := new Handler();
    var created := New(next, config);
    var handler := created.value;
    var req := new Request("GET", "localhost", "http://localhost", None, map[]);
    var engine := Template.Engine(queryEscape);
    ghost var data, order;
    ghost var before := req.header;
    outcome, data, order := handler.ServeHTTP(req, engine);
    OnlyCommonNameFails(handler, queryEscape, data);
    handler.SoleFailure(order, before, req.header, outcome, "X-Client-CN", engine, data);
    header := req.header;
    received := next.received;
  }
}
