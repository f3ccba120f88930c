/**
 Authentication forms of a request: the X-Sentry-Auth header, the query string and the DSN
 in the envelope header, as the ingest handler and the query handler each take a key from them.
 */
module Auth {
  import opened Base
  import opened Text
  import opened AuthHeader
  import EnvelopeGrammar
  import Dsn

  /** The parts of a request that may carry a key; absent tables are empty. */
  datatype Call = Call(headers: map<string, string>, query: map<string, string>, multiQuery: map<string, seq<string>>)

  const HEADER := "X-Sentry-Auth"
  const LOWER_HEADER := "x-sentry-auth"

  function Get(m: map<string, string>, k: string): string {
    if k in m then m[k] else ""
  }

  /** The header under the first spelling that is present, even if it is empty there. */
  function HeaderValue(call: Call): string {
    if HEADER in call.headers then call.headers[HEADER] else Get(call.headers, LOWER_HEADER)
  }

  /** Each form is none if absent; a header that names no usable key is present and empty. */
  function HeaderForm(call: Call): Option<string> {
    if HeaderValue(call) == "" then None else Some(IngestHeaderKey(HeaderValue(call)))
  }

  function QueryForm(call: Call): (k: Option<string>)
    ensures k.Some? ==> k.value != ""
  {
    if Get(call.query, KEY) != "" then Some(Get(call.query, KEY))
    else if KEY in call.multiQuery && call.multiQuery[KEY] != [] && call.multiQuery[KEY][0] != "" then
      Some(call.multiQuery[KEY][0])
    else None
  }

  /** The DSN that the first line of a body names; empty if it names none. */
  function HeaderDsn(dec: EnvelopeGrammar.Decoder, body: bytes): string {
    if body == [] then "" else OrEmpty(dec.header(body[..EnvelopeGrammar.FindNewline(body)]))
  }

  function EnvelopeForm(dec: EnvelopeGrammar.Decoder, body: bytes): Option<string> {
    var dsn := HeaderDsn(dec, body);
    if dsn == "" then None
    else
      match Dsn.PublicKey(dsn)
      case Err(_) => None
      case Ok(key) => Some(key)
  }

  datatype AuthInfo = AuthInfo(present: bool, key: string)

  /** The key of a request; an error if header and query string name different ones. */
  method ExtractAuthKey(dec: EnvelopeGrammar.Decoder, call: Call, body: bytes) returns (r: Option<AuthInfo>)
    ensures r == AuthOf(HeaderForm(call), QueryForm(call), EnvelopeForm(dec, body))
  {
    var info := AuthInfo(false, "");
    var headerKey := HeaderForm(call);
    if headerKey.Some? {
      info := AuthInfo(true, headerKey.value);
    }
    var queryKey := QueryForm(call);
    if queryKey.Some? {
      info := info.(present := true);
      if info.key != "" && queryKey.value != "" && info.key != queryKey.value {
        return None;
      }
      if queryKey.value != "" {
        info := info.(key := queryKey.value);
      }
    }
    if !info.present {
      var dsnKey := EnvelopeForm(dec, body);
      if dsnKey.Some? {
        info := AuthInfo(true, dsnKey.value);
      }
    }
    r := Some(info);
  }

  /** Two forms clash if both name a key and the keys differ. */
  predicate Clash(a: Option<string>, b: Option<string>) {
    a.Some? && b.Some? && a.value != "" && b.value != "" && a.value != b.value
  }

  /** The query string decides before the header, and the envelope only when both are absent. */
  function AuthOf(header: Option<string>, query: Option<string>, envelope: Option<string>): (r: Option<AuthInfo>)
    ensures r == None <==> Clash(header, query)
    ensures r.Some? ==> (r.value.present <==> header.Some? || query.Some? || envelope.Some?)
    ensures r.Some? && r.value.key != "" ==>
              if header == None && query == None then envelope == Some(r.value.key)
              else && (header.Some? && header.value != "" ==> header.value == r.value.key)
                   && (query.Some? && query.value != "" ==> query.value == r.value.key)
  {
    if Clash(header, query) then None
    else if query.Some? && query.value != "" then Some(AuthInfo(true, query.value))
    else if header.Some? || query.Some? then Some(AuthInfo(true, OrEmpty(header)))
    else if envelope.Some? then Some(AuthInfo(true, envelope.value))
    else Some(AuthInfo(false, ""))
  }

  /** The key that the query handler takes from a request. */
  function SentryKey(call: Call): string {
    var first, second := Get(call.headers, HEADER), Get(call.headers, LOWER_HEADER);
    if first != "" && QueryHeaderKey(first) != "" then QueryHeaderKey(first)
    else if second != "" && QueryHeaderKey(second) != "" then QueryHeaderKey(second)
    else Get(call.query, KEY)
  }

  lemma EmptyHeader()
    ensures HeaderKeys("") == []
  {
    assert Parts("") == [""] && PairOf("") == None;
    var found := Found([""], PairOf);
    assert found[0] == None;
    assert Pairs(found, 1) == Pairs(found, 0) == [];
  }

  /** The first key that a header names, under either spelling; empty if none does. */
  function FirstNamed(call: Call): string {
    var first := QueryHeaderKey(Get(call.headers, HEADER));
    if first != "" then first else QueryHeaderKey(Get(call.headers, LOWER_HEADER))
  }

  lemma HeaderBeforeQuery(call: Call)
    ensures SentryKey(call) == if FirstNamed(call) != "" then FirstNamed(call) else Get(call.query, KEY)
  {
    EmptyHeader();
  }

  /**
   For a request with a header or a query key that ingest does not reject for naming two:
   both handlers take the same key exactly if the first key in the headers is the query
   string's, or is missing and the query string has it as a single value; or, without one in
   the query string, if it is the last key of the header that ingest reads.
   */
  lemma HandlersAgree(dec: EnvelopeGrammar.Decoder, call: Call, body: bytes)
    requires HeaderForm(call).Some? || QueryForm(call).Some?
    ensures var r := AuthOf(HeaderForm(call), QueryForm(call), EnvelopeForm(dec, body));
            r.Some? ==>
              (r.value.key == SentryKey(call) <==>
               match QueryForm(call)
               case Some(k) => FirstNamed(call) == k || (FirstNamed(call) == "" && Get(call.query, KEY) != "")
               case None => FirstNamed(call) == OrEmpty(LastOf(HeaderKeys(HeaderValue(call)))))
  {
    HeaderBeforeQuery(call);
  }

  /** The header is there in at most one spelling, and the query string as single values. */
  ghost predicate Ordinary(call: Call) {
    !(HEADER in call.headers && LOWER_HEADER in call.headers) && Get(call.query, KEY) == OrEmpty(QueryForm(call))
  }

  lemma OneHeader(call: Call)
    requires Ordinary(call)
    ensures FirstNamed(call) == OrEmpty(FirstOf(HeaderKeys(HeaderValue(call))))
  {
    EmptyHeader();
  }

  /** For ordinary requests that comes to one question about the list of keys in the header. */
  lemma OrdinaryHandlersAgree(dec: EnvelopeGrammar.Decoder, call: Call, body: bytes)
    requires Ordinary(call) && (HeaderForm(call).Some? || QueryForm(call).Some?)
    ensures var r := AuthOf(HeaderForm(call), QueryForm(call), EnvelopeForm(dec, body));
            var keys := HeaderKeys(HeaderValue(call));
            r.Some? ==>
              (r.value.key == SentryKey(call) <==>
               || keys == []
               || if QueryForm(call).Some? then keys[0] in {"", QueryForm(call).value} else keys[0] == keys[|keys| - 1])
  {
    HandlersAgree(dec, call, body);
    OneHeader(call);
  }

  /** Of a body that parses, the DSN seen before parsing is the one in the parsed header. */
  lemma HeaderDsnIsParsed(dec: EnvelopeGrammar.Decoder, body: bytes)
    requires EnvelopeGrammar.Parse(dec, body).Ok?
    ensures HeaderDsn(dec, body) == EnvelopeGrammar.Parse(dec, body).value.dsn
  {
    var k := EnvelopeGrammar.FindNewline(body);
    assert k == |body| ==> body[..k] == body;
  }
}
