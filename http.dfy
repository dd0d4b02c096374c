/**
 * The parts of net/http and crypto/x509 that the plugin touches: the request
 * (its immutable metadata, its TLS state and its mutable header map), the peer
 * certificate as an opaque record, and the next handler in the chain.
 */
module Http {
  import opened Wrappers

  /** Go's `http.Header`: every key carries a list of values. */
  type Header = map<string, seq<string>>

  /** `Header.Set`: the key holds exactly the one given value afterwards. */
  function Set(h: Header, key: string, value: string): (r: Header)
    ensures key in r && r[key] == [value]
    ensures forall k :: k != key ==> (k in r <==> k in h) && (k in h ==> r[k] == h[k])
  {
    h[key := [value]]
  }

  /** An X.509 distinguished name, reduced to the field templates read. */
  datatype Name = Name(commonName: string)

  /** An already parsed peer certificate. */
  datatype Certificate = Certificate(subject: Name, issuer: Name, serialNumber: string)

  /** `tls.ConnectionState`: the peer certificates, leaf first. */
  datatype ConnectionState = ConnectionState(peerCertificates: seq<Certificate>)

  /**
   * An inbound request. The plugin only ever changes `header`; method, host,
   * URL and TLS state are fixed by the HTTP layer.
   */
  class Request {
    const httpMethod: string
    const host: string
    const url: string
    const tls: Option<ConnectionState>
    var header: Header

    constructor (httpMethod: string, host: string, url: string, tls: Option<ConnectionState>, header: Header)
      ensures this.httpMethod == httpMethod && this.host == host && this.url == url
      ensures this.tls == tls && this.header == header
    {
      this.httpMethod := httpMethod;
      this.host := host;
      this.url := url;
      this.tls := tls;
      this.header := header;
    }
  }

  /** One call of the next handler: the request it was given and its headers at that moment. */
  datatype Delivery = Delivery(request: Request, header: Header)

  /**
   * The next `http.Handler` in the chain. Its own behaviour is not part of
   * the plugin; the model records every request it is handed.
   */
  class Handler {
    var received: seq<Delivery>

    constructor ()
      ensures received == []
    {
      received := [];
    }

    method ServeHTTP(req: Request)
      modifies this
      ensures received == old(received) + [Delivery(req, req.header)]
    {
      received := received + [Delivery(req, req.header)];
    }
  }
}
