/**
 * The save handler: decode the body, reject empty content, then an empty
 * author, and only then call the saver, once. The saver is a parameter; the
 * exchange records the comment it was given, if it was called.
 */
module SaveHandler {
  import opened Wrappers
  import opened HttpStatus
  import opened ObjectIds
  import opened Models
  import opened PathTree
  import opened Storage

  datatype SaveResponse = SaveResponse(status: int, comment: Option<Comment>, error: string)

  datatype SaveExchange = SaveExchange(saved: Option<Comment>, response: SaveResponse)

  /**
   * `body` is the decoded request body, None when it is not a valid comment
   * document. The saver returns the comment as it filled it in, or an error.
   */
  function Handle(body: Option<Comment>, saver: Comment -> Result<Comment, Error>): (x: SaveExchange)
    ensures body.None? ==> x == SaveExchange(None, SaveResponse(StatusBadRequest, None, "invalid request body"))
    ensures body.Some? && body.value.content == "" ==>
              x == SaveExchange(None, SaveResponse(StatusBadRequest, None, "content is empty"))
    ensures body.Some? && body.value.content != "" && body.value.author == "" ==>
              x == SaveExchange(None, SaveResponse(StatusBadRequest, None, "author name is empty"))
    ensures x.saved.Some? <==> body.Some? && body.value.content != "" && body.value.author != ""
    ensures x.saved.Some? ==> x.saved == body
    ensures x.saved.Some? ==> (x.response.status == StatusOK <==> saver(x.saved.value).Ok?)
    ensures x.saved.Some? && saver(x.saved.value).Ok? ==> x.response.comment == Some(saver(x.saved.value).value)
    ensures x.saved.Some? && saver(x.saved.value).Err? ==> x.response.status == StatusInternalServerError
  {
    match body
    case None => SaveExchange(None, SaveResponse(StatusBadRequest, None, "invalid request body"))
    case Some(com) =>
      if com.content == "" then SaveExchange(None, SaveResponse(StatusBadRequest, None, "content is empty"))
      else if com.author == "" then SaveExchange(None, SaveResponse(StatusBadRequest, None, "author name is empty"))
      else
        match saver(com)
        case Err(_) => SaveExchange(Some(com), SaveResponse(StatusInternalServerError, None, "failed to save comment"))
        case Ok(filled) => SaveExchange(Some(com), SaveResponse(StatusOK, Some(filled), ""))
  }

  /**
   * The saver the service provides over a store holding `rs`: Create with the
   * next generated identifier and clock readings. This is the outcome that
   * `Service.CommentsService.SaveComment` ensures, restated here as a function
   * because the handler takes its saver as a function and a method cannot be
   * called from one.
   */
  function StoreSaver(rs: seq<Comment>, newId: ObjectID, createdAt: Time, updatedAt: Time): Comment -> Result<Comment, Error> {
    c =>
      var o := CreateOutcome(rs, c, newId, createdAt, updatedAt);
      if o.error.Some? then Err(o.error.value) else Ok(o.comment)
  }

  /**
   * End to end: a 200 response of the save handler backed by the store
   * carries the comment with its new identifier and a path that follows the
   * tree invariant; a reply naming an absent parent gets 500.
   */
  lemma SavedCommentHasPath(rs: seq<Comment>, body: Option<Comment>, newId: ObjectID, createdAt: Time, updatedAt: Time)
    requires WellFormed(rs)
    requires forall r :: r in rs ==> r.id != newId
    ensures Handle(body, StoreSaver(rs, newId, createdAt, updatedAt)).response.status == StatusOK ==>
              var c := Handle(body, StoreSaver(rs, newId, createdAt, updatedAt)).response.comment.value;
              c.id == newId && PathOk(rs + [c], c)
    ensures body.Some? && body.value.content != "" && body.value.author != "" &&
            body.value.parentId.Some? && FindById(rs, body.value.parentId.value).None? ==>
              Handle(body, StoreSaver(rs, newId, createdAt, updatedAt)).response.status == StatusInternalServerError
  {
    var x := Handle(body, StoreSaver(rs, newId, createdAt, updatedAt));
    if x.response.status == StatusOK {
      var c := x.response.comment.value;
      var o := CreateOutcome(rs, body.value, newId, createdAt, updatedAt);
      assert c == o.comment;
      CreatePreservesWellFormed(rs, body.value, newId, createdAt, updatedAt);
      assert o.records == rs + [c];
      assert c in o.records;
    }
  }
}
