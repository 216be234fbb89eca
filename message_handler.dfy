/**
 * The HTTP handlers that edit and delete chat messages: early-return ladders from the
 * request to a status code and a JSON body. The authenticated user id, the path
 * parameter and the decoded body are inputs; the service answers through the repository
 * it passes through.
 */
module MessageHandler {
  import opened Common
  import opened Decimal
  import MessageService

  /** The JSON bodies: `errorResponse{Message}` and `StatusResponse{Status}`. */
  datatype Body = ErrorMessage(message: string) | StatusMessage(status: string)

  datatype Response = Response(code: int, body: Body)

  const StatusOK := 200
  const StatusBadRequest := 400
  const StatusInternalServerError := 500

  /** The most content an edit may hold, in bytes. */
  const MaxContentBytes := 1000

  /** The number of bytes a code point takes in UTF-8. */
  function Utf8Width(c: char): (w: nat)
    ensures 1 <= w <= 4
  {
    var u := c as int;
    if u < 0x80 then 1 else if u < 0x800 then 2 else if u < 0x1_0000 then 3 else 4
  }

  /** `len(s)` of a Go string: its length in UTF-8 bytes. */
  function Utf8Length(s: string): (n: nat)
    ensures |s| <= n <= 4 * |s|
  {
    if s == [] then 0 else Utf8Length(s[..|s| - 1]) + Utf8Width(s[|s| - 1])
  }

  /** The service call a handler made: the message id, the user id and, for an edit, the content. */
  datatype ServiceCall = UpdateCall(messageId: int, userId: int, content: string) | DeleteCall(messageId: int, userId: int)

  datatype Handled = Handled(response: Response, call: Option<ServiceCall>)

  /**
   * Handler.updateMessage: the user id from the request context, the `id` path parameter,
   * the bound JSON body's content, and the repository the service passes the edit to.
   */
  function UpdateMessage(userId: Result<int>, idParam: string, content: Result<string>,
                         repo: MessageService.MessageRepository): (h: Handled)
    ensures h.call.None? ==> h.response.code in {StatusBadRequest, StatusInternalServerError}
    ensures h.response.code == StatusOK ==> h.call.Some? && h.call.value.UpdateCall?
  {
    if userId.Err? then
      Handled(Response(StatusInternalServerError, ErrorMessage(ErrorText(userId.error))), None)
    else if Atoi(idParam).None? then
      Handled(Response(StatusBadRequest, ErrorMessage("invalid message id")), None)
    else if content.Err? then
      Handled(Response(StatusBadRequest, ErrorMessage(ErrorText(content.error))), None)
    else if content.value == "" then
      Handled(Response(StatusBadRequest, ErrorMessage("content cannot be empty")), None)
    else if Utf8Length(content.value) > MaxContentBytes then
      Handled(Response(StatusBadRequest, ErrorMessage("cannot too long")), None)
    else
      var messageId := Atoi(idParam).value;
      var call := Some(UpdateCall(messageId, userId.value, content.value));
      var err := MessageService.UpdateMessage(repo, messageId, userId.value, content.value);
      if err.Some? then Handled(Response(StatusInternalServerError, ErrorMessage(ErrorText(err.value))), call)
      else Handled(Response(StatusOK, StatusMessage("message updated")), call)
  }

  /** Every input of the edit that the handler checks itself is acceptable. */
  predicate EditAcceptable(userId: Result<int>, idParam: string, content: Result<string>)
  {
    userId.Ok? && Atoi(idParam).Some? && content.Ok? && 0 < Utf8Length(content.value) <= MaxContentBytes
  }

  /**
   * The service is asked to edit exactly when every check passes, with the parsed message
   * id, the user and the content; then the answer is 200 unless the repository fails.
   */
  lemma UpdateMessageCallsService(userId: Result<int>, idParam: string, content: Result<string>,
                                  repo: MessageService.MessageRepository)
    ensures var h := UpdateMessage(userId, idParam, content, repo);
            h.call.Some? <==> EditAcceptable(userId, idParam, content)
    ensures var h := UpdateMessage(userId, idParam, content, repo);
            h.call.Some? ==>
              h.call.value == UpdateCall(Atoi(idParam).value, userId.value, content.value)
              && (h.response == Response(StatusOK, StatusMessage("message updated")) <==>
                    repo.update(Atoi(idParam).value, userId.value, content.value).None?)
  {
    if content.Ok? && content.value != [] {
      assert Utf8Length(content.value) >= 1;
    }
  }

  /**
   * The order of the checks: a missing user is a server error before anything else; a bad
   * id, an unreadable body, empty and over-long content are each the client's fault (400).
   */
  lemma UpdateMessageRejects(userId: Result<int>, idParam: string, content: Result<string>,
                             repo: MessageService.MessageRepository)
    ensures var r := UpdateMessage(userId, idParam, content, repo).response;
            && (userId.Err? ==> r.code == StatusInternalServerError)
            && (userId.Ok? && Atoi(idParam).None? ==> r == Response(StatusBadRequest, ErrorMessage("invalid message id")))
            && (userId.Ok? && Atoi(idParam).Some? && content.Ok? && content.value == "" ==>
                  r == Response(StatusBadRequest, ErrorMessage("content cannot be empty")))
            && (userId.Ok? && Atoi(idParam).Some? && content.Ok? && Utf8Length(content.value) > MaxContentBytes ==>
                  r == Response(StatusBadRequest, ErrorMessage("cannot too long")))
            && r.code in {StatusOK, StatusBadRequest, StatusInternalServerError}
  {
  }

  /** The length limit counts bytes: exactly 1000 ASCII characters pass it. */
  lemma ThousandAsciiBytesAccepted(s: string)
    requires |s| == MaxContentBytes && forall i :: 0 <= i < |s| ==> s[i] as int < 0x80
    ensures Utf8Length(s) == MaxContentBytes
  {
    AsciiLength(s);
  }

  lemma {:induction false} AsciiLength(s: string)
    requires forall i :: 0 <= i < |s| ==> s[i] as int < 0x80
    ensures Utf8Length(s) == |s|
  {
    if s != [] {
      AsciiLength(s[..|s| - 1]);
    }
  }

  /** 334 euro signs, of three bytes each, are already over the limit. */
  lemma WideCharactersRejected()
    ensures Utf8Length(seq(334, _ => '\U{20AC}')) > MaxContentBytes
  {
    WideLength(seq(334, _ => '\U{20AC}'));
  }

  lemma {:induction false} WideLength(s: string)
    requires forall i :: 0 <= i < |s| ==> s[i] == '\U{20AC}'
    ensures Utf8Length(s) == 3 * |s|
  {
    if s != [] {
      WideLength(s[..|s| - 1]);
    }
  }

  /** Handler.deleteMessage. */
  function DeleteMessage(userId: Result<int>, idParam: string, repo: MessageService.MessageRepository): (h: Handled)
    ensures h.call.None? ==> h.response.code in {StatusBadRequest, StatusInternalServerError}
    ensures h.response.code == StatusOK ==> h.call.Some? && h.call.value.DeleteCall?
  {
    if userId.Err? then
      Handled(Response(StatusInternalServerError, ErrorMessage(ErrorText(userId.error))), None)
    else if Atoi(idParam).None? then
      Handled(Response(StatusBadRequest, ErrorMessage("invalid message id")), None)
    else
      var messageId := Atoi(idParam).value;
      var call := Some(DeleteCall(messageId, userId.value));
      var err := MessageService.DeleteMessage(repo, messageId, userId.value);
      if err.Some? then Handled(Response(StatusInternalServerError, ErrorMessage(ErrorText(err.value))), call)
      else Handled(Response(StatusOK, StatusMessage("message deleted")), call)
  }

  /**
   * Every failure of the delete itself, a missing message included, is a server error
   * carrying the error's text: the handler never answers 404.
   */
  lemma DeleteMessageErrors(userId: Result<int>, idParam: string, repo: MessageService.MessageRepository)
    ensures var h := DeleteMessage(userId, idParam, repo);
            && (h.call.Some? <==> userId.Ok? && Atoi(idParam).Some?)
            && (h.call.Some? ==> h.call.value == DeleteCall(Atoi(idParam).value, userId.value))
            && (h.call.Some? && repo.delete(Atoi(idParam).value, userId.value).Some? ==>
                  h.response == Response(StatusInternalServerError,
                                         ErrorMessage(ErrorText(repo.delete(Atoi(idParam).value, userId.value).value))))
            && (h.response.code == StatusOK <==> h.call.Some? && repo.delete(Atoi(idParam).value, userId.value).None?)
            && h.response.code != 404
  {
  }
}
