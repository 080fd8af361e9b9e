/**
 * The SPARQL 1.1 Query Results JSON Format (section 3 of the W3C recommendation) as the
 * dashboard reads it: the envelope's `head.vars` and `results.bindings`, flattened into one
 * record per binding, and the HTTP checks made before the body is read.
 */
module SparqlResults {
  import opened Wrappers

  /** An RDF term object of a binding: its members ("type", "value", "xml:lang", "datatype"). */
  type Term = map<string, string>

  /** One solution: variable name to RDF term; unbound variables are absent. */
  type Binding = map<string, Term>

  /** The parsed `{"head": {"vars": ...}, "results": {"bindings": ...}}` envelope. */
  datatype Envelope = Envelope(vars: seq<string>, bindings: seq<Binding>)

  /** One row of the data frame: variable name to the term's lexical value, `None` when unbound. */
  type Record = map<string, Option<string>>

  type Frame = seq<Record>

  /**
   * What the endpoint answered: the status code and, when the body is a JSON document with
   * the envelope's `head.vars` and `results.bindings` members, that envelope.
   */
  datatype Response = Response(status: int, body: Option<Envelope>)

  datatype FetchError =
    | HttpError(status: int)   // `raise_for_status` on a 4xx or 5xx status
    | MalformedBody            // `.json()` or the `["head"]["vars"]` / `["results"]["bindings"]` lookups fail

  /** The lexical value of `v` in `b`: `k.get(v, {}).get("value")`. */
  function ValueOf(b: Binding, v: string): Option<string>
  {
    if v in b && "value" in b[v] then Some(b[v]["value"]) else None
  }

  /** The record of one binding: keyed by exactly the declared variables. */
  function ShapeRow(vars: seq<string>, b: Binding): (r: Record)
    ensures r.Keys == set v | v in vars
    ensures forall v :: v in r ==> (r[v].Some? <==> v in b && "value" in b[v])
    ensures forall v :: v in r && r[v].Some? ==> r[v].value == b[v]["value"]
  {
    map v | v in vars :: ValueOf(b, v)
  }

  /** The data frame of an envelope: one record per binding, in binding order. */
  function Shape(e: Envelope): (f: Frame)
    ensures |f| == |e.bindings|
    ensures forall i :: 0 <= i < |f| ==> f[i].Keys == set v | v in e.vars
    ensures forall i :: 0 <= i < |f| ==> f[i] == ShapeRow(e.vars, e.bindings[i])
  {
    seq(|e.bindings|, i requires 0 <= i < |e.bindings| => ShapeRow(e.vars, e.bindings[i]))
  }

  /** The binding a SPARQL endpoint would send for a record: one literal term per bound variable. */
  function Encode(rec: Record): Binding
  {
    map v | v in rec && rec[v].Some? :: map["type" := "literal", "value" := rec[v].value]
  }

  /** Shaping inverts encoding: a record keyed by the declared variables survives the round trip. */
  lemma ShapeEncode(vars: seq<string>, rec: Record)
    requires rec.Keys == set v | v in vars
    ensures ShapeRow(vars, Encode(rec)) == rec
  {
    var r := ShapeRow(vars, Encode(rec));
    forall v | v in rec
      ensures r[v] == rec[v]
    {
      assert v in vars;
    }
  }

  /** `_get_from_query` after the POST: raise on an error status, parse, shape. */
  function Receive(resp: Response): Result<Frame, FetchError>
  {
    if 400 <= resp.status < 600 then Failure(HttpError(resp.status))
    else if resp.body.None? then Failure(MalformedBody)
    else Success(Shape(resp.body.value))
  }
}
