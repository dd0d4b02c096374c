# mTLS header plugin — a verified model

The plugin is a Traefik middleware. It copies facts about the client's TLS
certificate and the inbound request into request headers before the request
goes to the next handler. Its configuration maps header names to template
sources written with `[[` and `]]` delimiters, for example
`CN=[[.Cert.Subject.CommonName]]`, plus one flag that asks for
percent-encoding of the rendered values.

These are the parts of `mtlsheader.go` that the model covers:

- `Config` and `CreateConfig`;
- `New`, which refuses a configuration without headers;
- the rendering context, which holds the request and the selected peer certificate;
- `ServeHTTP`. It picks the leaf certificate, then renders every configured
  header and sets it on the request, percent-encoding the value when the flag
  is on. It stops with status 500 on the first template that fails to compile
  or run, and forwards the request to the next handler only when every header
  rendered.

Files:

- `wrappers.dfy`: `Option` and `Result`.
- `http.dfy`: the slice of `net/http` and `crypto/x509` that the plugin
  touches.
  - The request is a class. Its header map is the one mutable field.
  - The next handler is a class that records every request it is handed.
  - `Header.Set` is a function.
- `mtlsheader.dfy`: the plugin itself.
  - `ServeHTTP` is a method that modifies the request and the next handler.
    Its header loop, `SetHeaders`, is a `while` loop over the configured keys.
  - Each key is picked with `:|`, because Go leaves map iteration order
    unspecified. A ghost out-parameter `order` reports the order that was
    taken.
  - The template library and `url.QueryEscape` are an `Engine` value: the
    compile, execute and escape functions are parameters.
  - `FirstFailure` and `Overlay` are the specification functions. They give
    where the loop stops and the headers it leaves behind.
- `template.dfy`: a closed-field stand-in for the template engine. It has
  literal text and field actions over `.Request.Host`, `.Request.Method`,
  `.Request.URL`, `.Cert.Subject.CommonName`, `.Cert.Issuer.CommonName` and
  `.Cert.SerialNumber`.
  - Compiling is proved to be the inverse of printing.
  - Naming a certificate field when there is no certificate is an execution
    error.
- `scenario.dfy`: the repository's end-to-end test as a method, plus the
  same configuration without a TLS connection.

## Model

| member | source | states |
|---|---|---|
| Plugin.CreateConfig | mtlsheader.go:22-27 | the default configuration has no headers and the encode flag off |
| Plugin.New | mtlsheader.go:39-51 | construction fails exactly when the header map is empty, with the error "headers cannot be empty"; otherwise the plugin holds exactly the given headers, encode flag and next handler |
| Plugin.DefaultConfigRefused | mtlsheader.go:22-42 | the default configuration (no headers, no encoding) is refused by `New` |
| Plugin.LoadCertificate | mtlsheader.go:60-71 | the context's certificate is the first peer certificate when the request is TLS and the chain is non-empty, and none otherwise; a later certificate is never chosen |
| Plugin.Render | mtlsheader.go:74-86 | a compile error is the rendering's error; otherwise the rendering is the execution of the compiled template against the context, with its error if it fails |
| Plugin.HeaderValue | mtlsheader.go:74-92 | a header value exists exactly when the rendering succeeds, carries the rendering's error otherwise, and is the rendering percent-encoded exactly when the flag is set |
| Plugin.MtlsHeader.FirstFailure | mtlsheader.go:73-86 | in a given visiting order, every key before the stopping point renders, the key at the stopping point fails, and the stopping point is the end exactly when nothing fails |
| Plugin.MtlsHeader.SetHeaders | mtlsheader.go:73-93 | the loop visits the configured keys in some duplicate-free order covering all of them; the request headers become the old headers overlaid with the keys visited before the first failure; that failure's error is reported, or none when every key renders |
| Plugin.MtlsHeader.ServeHTTP | mtlsheader.go:58-96 | the leaf certificate is selected; the headers are overlaid as in the loop; the outcome is a 500 with the first failing key's error, or forwarded; it is forwarded exactly when every configured template renders; the next handler receives the mutated request exactly once when forwarded and is never called otherwise |
| Plugin.MtlsHeader.OverlayValues | mtlsheader.go:88-92 | after the loop, each visited key holds exactly one value, its rendering, percent-encoded exactly when the flag is set, whatever it held before; every other header is unchanged |
| Plugin.MtlsHeader.AllRendered | mtlsheader.go:73-95 | for every iteration order, the loop reaches the end exactly when every configured template renders |
| Plugin.MtlsHeader.AllForwarded | mtlsheader.go:73-95 | when every template renders, the request is forwarded and carries every configured header |
| Plugin.MtlsHeader.SoleFailure | mtlsheader.go:73-86 | when exactly one template fails, every iteration order gives a 500 with that template's error, and that header keeps its old value |
| Plugin.MtlsHeader.Unvisited | mtlsheader.go:73-86 | the keys visited before the stopping point hold their one rendered value; the failing key and every key after it in the order keep their previous values |
| Plugin.MtlsHeader.OrderIrrelevant | mtlsheader.go:73 | for renderings that do not read the header map, two iteration orders both succeed or both fail, and on success they leave the same headers |
| Plugin.MtlsHeader.OverlayIdempotent | mtlsheader.go:88-92 | setting the rendered headers a second time changes nothing |
| Plugin.MtlsHeader.FirstFailureAppend | mtlsheader.go:73-86 | after a prefix in which every key renders, the stopping point is the prefix length plus the stopping point of the rest |
| Plugin.MtlsHeader.StopOrder | mtlsheader.go:73-86 | when the loop stops at a key, some complete order has the keys already set, the failing key at the stopping point, and the unreached keys after it |
| Http.Set | mtlsheader.go:89-91 | after `Header.Set` the key holds exactly the one given value, whatever it held before, and every other key is unchanged |
| Http.Handler.ServeHTTP | mtlsheader.go:95 | the next handler records the request with its headers at the moment of the call |
| Template.Lookup | mtlsheader.go:82 | a field resolves exactly when it is a request field, or a certificate field while a certificate is selected |
| Template.Execute | mtlsheader.go:82 | execution succeeds exactly when every field resolves; on failure the error is that of the first piece that fails |
| Template.Parse | mtlsheader.go:74 | a compile error is either an unclosed action or an unsupported action |
| Template.SplitSound | mtlsheader.go:49 | splitting at the first `[[` and the next `]]` returns the text before it and the action, where neither contains its closing delimiter, and the three parts rebuild the source |
| Template.ParseSound | mtlsheader.go:74 | a successfully compiled template is canonical and prints back to its source |
| Template.ExecuteSubstitute | mtlsheader.go:82 | a successful execution prints the template with every action replaced by the literal value of its field |
| Template.ParseUnparse | mtlsheader.go:74 | compiling the printed form of a canonical template gives back that template |
| Template.RenderText | mtlsheader.go:74-82 | a source without `[[` renders to itself |
| Template.WithoutCertificate | mtlsheader.go:60-82 | without a peer certificate, a template renders exactly when every field it names is a request field |
| MtlsHeaderTest.HostValue | mtlsheader_test.go:38 | `[[.Request.Host]]` renders to the request host |
| MtlsHeaderTest.MethodValue | mtlsheader_test.go:39 | `[[.Request.Method]]` renders to the request method |
| MtlsHeaderTest.UrlValue | mtlsheader_test.go:40 | `[[.Request.URL]]` renders to the request URL |
| MtlsHeaderTest.CommonNameValue | mtlsheader_test.go:41 | `CN=[[.Cert.Subject.CommonName]]` renders to `CN=mtls_client` for the test certificate |
| MtlsHeaderTest.TestRendered | mtlsheader_test.go:75-78 | all four test headers render, and overlaying them gives exactly the four expected single-valued headers |
| MtlsHeaderTest.TestMtlsHeader | mtlsheader_test.go:35-79 | the configured plugin on a GET to http://localhost with the client certificate forwards the request once, carrying `localhost`, `GET`, `http://localhost` and `CN=mtls_client` |
| MtlsHeaderTest.CommonNameMissing | mtlsheader.go:82-85 | without a certificate the common-name template fails with the missing-certificate error |
| MtlsHeaderTest.TestWithoutCertificate | mtlsheader.go:60-86 | without TLS, every iteration order answers 500 with the missing-certificate error, leaves the common-name header unset and never calls the next handler |

## Left out

- Template internals: `text/template` is a library. `Template` is a closed-field subset with no pipelines, functions, comments, trim markers or other actions. Its error texts are the model's own.
- Template.Lookup: a certificate field read while no certificate is selected is an execution error (ErrNoCertificate). That is this model's policy, not a claim about what `text/template` does with a nil pointer.
- Plugin.MtlsHeader.OrderIrrelevant: the rendering context does not expose the request's header map. A rendering therefore never sees the headers set earlier in the loop. In the source, `data.Request` is the request being changed, so a template that reads its headers (`[[.Request.Header]]`) can give different results in different iteration orders. OverlayIdempotent rests on the same restriction.
- The shared template object: the source re-parses every header into one `*template.Template`. Under `text/template`'s redefinition rule, a source that is empty or only white space keeps the previous body. The model compiles each source on its own.
- Concurrency: the source mutates that shared template on every request. The model is sequential.
- `url.QueryEscape`: the model takes it as a parameter of the engine and does not model percent-encoding.
- X.509 and PEM parsing and the TLS handshake: a certificate is a record of subject and issuer common names and a serial number, the serial written as a decimal string.
- Header-key canonicalisation: `Header.Set` in the source canonicalises keys (so `X-URL` is stored under `X-Url`). In the model, keys are stored as given, which also leaves out collisions between configured names that differ only in case.
- The response writer: `http.Error` becomes an `Error(500, message)` outcome. The response body's trailing newline and its content-type headers are not modelled.
- The context argument and the plugin's `name`: they have no behaviour and do not appear.
- The `bytes.Buffer` (mtlsheader.go:80) becomes the string result of execution.
- MtlsHeaderTest.TestMtlsHeader: the test's next handler does nothing. The model's handler records its calls, so the method can state that the request is forwarded once.
