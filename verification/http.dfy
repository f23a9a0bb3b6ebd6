/** HTTP replies: a status code and a JSON body, as `res.status(..).json(..)` sends them. */
module Http {
  import opened Wrappers
  import opened Json

  datatype Reply = Reply(status: nat, body: Json)

  /** The `{ success: false, error }` body every server handler uses for its failures. */
  function FailureBody(error: string): (b: Json)
    ensures StringField(b, "error") == Some(error)
    ensures Field(b, "success") == Some(JBool(false))
    ensures Field(b, "data").None?
  {
    JObject(map["success" := JBool(false), "error" := JString(error)])
  }

  /** The `{ success: true, data }` body of a successful reply. */
  function SuccessBody(data: Json): (b: Json)
    ensures Field(b, "success") == Some(JBool(true))
    ensures Field(b, "data") == Some(data)
    ensures Field(b, "error").None?
  {
    JObject(map["success" := JBool(true), "data" := data])
  }

  /** A failure reply. */
  function Fail(status: nat, error: string): (r: Reply)
    ensures r.status == status && StringField(r.body, "error") == Some(error)
  {
    Reply(status, FailureBody(error))
  }

  /** True when `r` is a failure reply whose error text is `error`. */
  predicate IsFailure(r: Reply, error: string) {
    StringField(r.body, "error") == Some(error) && Field(r.body, "success") == Some(JBool(false))
  }

  /** Reading below `data` in a success body reads the data itself. */
  lemma PathIntoData(data: Json, keys: seq<string>)
    ensures Path(SuccessBody(data), ["data"] + keys) == Path(data, keys)
  {
    assert (["data"] + keys)[1..] == keys;
  }
}
