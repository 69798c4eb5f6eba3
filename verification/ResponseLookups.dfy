/** Which operation, response and schema the two lookups of a document find, said of its members. */
module ResponseLookups {
  import opened Wrappers
  import opened Json
  import opened ResponseSchemas

  /** The member is an operation under one of the five methods, with this id. */
  predicate OperationWithId(m: Member, operationId: string) {
    && m.value.Object? && m.key in ["get", "post", "put", "patch", "delete"]
    && Holds(m.value.members, "operationId", Text(operationId))
  }

  predicate ItemHas(item: Member, operationId: string) {
    item.value.Object? && exists m :: m in item.value.members && OperationWithId(m, operationId)
  }

  lemma OperationIff(m: Member, operationId: string)
    ensures OperationWithId(m, operationId) <==> IsOperation(m) && HasId(m, operationId)
  {
    hide Lookup, Holds;
    if m.value.Object? {
      Keyed(m.value.members, "operationId");
    }
  }

  lemma {:induction false} FoundInItemIff(item: seq<Member>, pathKey: string, operationId: string)
    ensures FindInItem(item, pathKey, operationId).Some? <==> exists m :: m in item && OperationWithId(m, operationId)
    ensures FindInItem(item, pathKey, operationId).Some? ==>
              Holds(FindInItem(item, pathKey, operationId).value.members, "operationId", Text(operationId))
    decreases |item|
  {
    hide OperationWithId, Holds, Escape;
    if item != [] {
      FoundInItemIff(item[1..], pathKey, operationId);
      OperationIff(item[0], operationId);
      OperationHoldsId(item[0], operationId);
      assert forall m :: m in item <==> m == item[0] || m in item[1..];
    }
  }

  lemma OperationHoldsId(m: Member, operationId: string)
    ensures OperationWithId(m, operationId)
            ==> m.value.Object? && Holds(m.value.members, "operationId", Text(operationId))
  {
  }

  /** An operation is found exactly when some path item has one with this id, and what is found has the id. */
  lemma {:induction false} FoundIff(paths: seq<Member>, operationId: string)
    ensures FindOperation(paths, operationId).Some? <==> exists item :: item in paths && ItemHas(item, operationId)
    ensures FindOperation(paths, operationId).Some? ==>
              Holds(FindOperation(paths, operationId).value.members, "operationId", Text(operationId))
    decreases |paths|
  {
    hide FindInItem, OperationWithId, Holds;
    if paths != [] {
      FoundIff(paths[1..], operationId);
      if paths[0].value.Object? {
        FoundInItemIff(paths[0].value.members, paths[0].key, operationId);
      }
      assert ItemHas(paths[0], operationId) ==> FindOperation(paths, operationId).Some?;
      assert forall item :: item in paths <==> item == paths[0] || item in paths[1..];
    }
  }

  // ---------------------------------------------------------------- the response

  /** The response of a status, with the key it stands under: the status itself, or `default` where that is absent. */
  predicate ResponseUnder(responses: seq<Member>, status: string, key: string, response: seq<Member>) {
    || (key == status && Holds(responses, status, Object(response)))
    || (key == "default" && Lacks(responses, status) && Holds(responses, "default", Object(response)))
  }

  /** Which response is documented for an operation and a status. */
  lemma DocumentedIff(document: seq<Member>, operationId: string, status: string, response: Located)
    ensures DocumentedResponse(document, operationId, status) == Success(response) <==>
            exists paths, operation, responses, key ::
              && Holds(document, "paths", Object(paths)) && FindOperation(paths, operationId) == Some(operation)
              && Holds(operation.members, "responses", Object(responses))
              && ResponseUnder(responses, status, key, response.members)
              && response.path == operation.path + "/responses/" + Escape(key)
  {
    hide Lookup, Holds, Lacks, FindOperation, Escape;
    Keyed(document, "paths");
    if PathsOf(document).Some? && FindOperation(PathsOf(document).value, operationId).Some? {
      var paths := PathsOf(document).value;
      var operation := FindOperation(paths, operationId).value;
      Keyed(operation.members, "responses");
      if Lookup(operation.members, "responses").Some? && Lookup(operation.members, "responses").value.Object? {
        var responses := Lookup(operation.members, "responses").value.members;
        Keyed(responses, status);
        Keyed(responses, "default");
        if DocumentedResponse(document, operationId, status) == Success(response) {
          assert ResponseUnder(responses, status, ResponseKey(responses, status), response.members);
        }
      }
    }
  }

  /** The media object of a JSON response. */
  lemma JsonMediaIff(response: seq<Member>, media: seq<Member>)
    ensures JsonMedia(response) == Some(media) <==>
            exists content :: Holds(response, "content", Object(content))
                              && Holds(content, "application/json", Object(media))
  {
    hide Lookup, Holds;
    Keyed(response, "content");
    if Lookup(response, "content").Some? && Lookup(response, "content").value.Object? {
      Keyed(Lookup(response, "content").value.members, "application/json");
    }
  }

  /** What counts as false: null, false, zero, and the empty text, list and object. */
  predicate CountsAsFalse(v: Value) {
    v in {Null, Bool(false), Text(""), Array([]), Object([])} || (v.Number? && v.isZero)
  }

  /** The response the truthiness fallback picks: the status unless it counts as false, then the default. */
  ghost predicate PickedResponse(responses: seq<Member>, status: string, response: Value) {
    || (Holds(responses, status, response) && !CountsAsFalse(response))
    || (&& (Lacks(responses, status) || exists v :: Holds(responses, status, v) && CountsAsFalse(v))
        && Holds(responses, "default", response))
  }

  /** The schema documented for a status of an operation. */
  ghost predicate SchemaUnder(operation: seq<Member>, status: string, schema: Value) {
    exists responses, response, media ::
      && Holds(operation, "responses", Object(responses)) && PickedResponse(responses, status, Object(response))
      && JsonMedia(response) == Some(media) && Holds(media, "schema", schema)
  }

  lemma SchemaFound(document: seq<Member>, paths: seq<Member>, operation: seq<Member>, operationId: string,
                    status: string, schema: Value)
    requires PathsOf(document) == Some(paths) && FirstById(RawOperations(paths), operationId) == Some(operation)
    ensures OperationResponseSchema(document, operationId, status) == Success(Some(schema))
       <==> SchemaUnder(operation, status, schema)
  {
    hide Lookup, Holds, Lacks, JsonMedia, FirstById, RawOperations, PickedResponse, StatusOrDefault, PathsOf;
    Keyed(operation, "responses");
    if Lookup(operation, "responses").Some? && Lookup(operation, "responses").value.Object? {
      var responses := Lookup(operation, "responses").value.members;
      PickedIff(responses, status);
      var picked := StatusOrDefault(responses, status);
      if picked.Some? && picked.value.Object? && JsonMedia(picked.value.members).Some? {
        Keyed(JsonMedia(picked.value.members).value, "schema");
      }
    }
  }

  /** Which schema the other lookup returns for an operation and a status. */
  lemma SchemaIff(document: seq<Member>, operationId: string, status: string, schema: Value)
    ensures OperationResponseSchema(document, operationId, status) == Success(Some(schema)) <==>
            exists paths, operation :: Holds(document, "paths", Object(paths))
                                       && FindOperation(paths, operationId) == Some(operation)
                                       && SchemaUnder(operation.members, status, schema)
  {
    hide Lookup, Holds, FindOperation, FirstById, RawOperations, SchemaUnder, StatusOrDefault, JsonMedia;
    Keyed(document, "paths");
    if PathsOf(document).Some? {
      var paths := PathsOf(document).value;
      FindOperationAgrees(paths, operationId);
      if FindOperation(paths, operationId).Some? {
        SchemaFound(document, paths, FindOperation(paths, operationId).value.members, operationId, status, schema);
      }
    }
  }

  lemma PickedIff(responses: seq<Member>, status: string)
    ensures forall response :: StatusOrDefault(responses, status) == Some(response)
                          <==> PickedResponse(responses, status, response)
  {
    hide Lookup, Holds, Lacks;
    Keyed(responses, status);
    Keyed(responses, "default");
  }
}
