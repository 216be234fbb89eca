/**
 * MessageService: storing a chat message, then publishing a record on the message stream.
 * The repository and the producer are abstract: their answers are parameters.
 */
module MessageService {
  import opened Common

  /**
   * The service's optional producer: absent (a nil pointer), or present, publishing a record
   * whose value is the given JSON text and answering with an error or success.
   */
  datatype Producer = NoProducer | Producer(publish: string -> Option<Error>)

  /** What CreateMessage returns, and the record value it published, if any. */
  datatype Created = Created(id: int, err: Option<Error>, published: Option<string>)

  /**
   * Producer.SendMessage marshals its first argument; the service passes the string
   * "messages" there, so every record holds this JSON string.
   */
  const MarshalledTopic := "\"messages\""

  /**
   * The ladder of MessageService.CreateMessage, given what SendMessage publishes for the
   * stored message (`marshal`).
   */
  function CreateMessageWith(marshal: Message -> string, roomId: int, userId: int, content: string,
                             inserted: Result<int>, producer: Producer): (r: Created)
    ensures r.err.Some? ==> r.id == 0 && r.published.None?
    ensures r.published.Some? ==>
              inserted.Ok? && r.published.value == marshal(Message(inserted.value, roomId, userId, content))
  {
    if inserted.Err? then Created(0, Some(inserted.error), None)
    else
      var message := Message(inserted.value, roomId, userId, content);
      if producer.Producer? then
        var payload := marshal(message);
        if producer.publish(payload).Some? then Created(0, None, Some(payload))
        else Created(message.id, None, Some(payload))
      else Created(message.id, None, None)
  }

  /** MessageService.CreateMessage as written: `SendMessage("messages", message)`. */
  function CreateMessage(roomId: int, userId: int, content: string, inserted: Result<int>, producer: Producer): (r: Created)
    ensures r.err.Some? ==> r.id == 0 && r.published.None?
    ensures r.published.Some? ==> r.published.value == MarshalledTopic
  {
    CreateMessageWith(_ => MarshalledTopic, roomId, userId, content, inserted, producer)
  }

  /** A failed insert is returned as is, with id 0, and nothing is published. */
  lemma CreateMessageInsertFails(roomId: int, userId: int, content: string, inserted: Result<int>, producer: Producer)
    ensures var r := CreateMessage(roomId, userId, content, inserted, producer);
            r.err.Some? <==> inserted.Err?
    ensures var r := CreateMessage(roomId, userId, content, inserted, producer);
            inserted.Err? ==> r.id == 0 && r.err == Some(inserted.error) && r.published.None?
  {
  }

  /**
   * After a successful insert one record is published, exactly when there is a producer;
   * as written its value is the marshalled string "messages", whatever was stored.
   */
  lemma CreateMessageSends(roomId: int, userId: int, content: string, inserted: Result<int>, producer: Producer)
    ensures var r := CreateMessage(roomId, userId, content, inserted, producer);
            r.published.Some? <==> inserted.Ok? && producer.Producer?
    ensures var r := CreateMessage(roomId, userId, content, inserted, producer);
            r.published.Some? ==> r.published.value == MarshalledTopic
  {
  }

  /**
   * The reported id: the inserted one, unless publishing failed, in which case it is 0 and
   * the producer's error is dropped (no error is returned).
   */
  lemma CreateMessageId(roomId: int, userId: int, content: string, inserted: Result<int>, producer: Producer)
    requires inserted.Ok?
    ensures var r := CreateMessage(roomId, userId, content, inserted, producer);
            && r.err.None?
            && (r.id == inserted.value <==>
                  producer.NoProducer? || producer.publish(MarshalledTopic).None? || inserted.value == 0)
            && (producer.Producer? && producer.publish(MarshalledTopic).Some? ==> r.id == 0)
  {
  }

  /**
   * As written, two different stored messages are published as the same record: a consumer
   * of the stream cannot tell which message was created.
   */
  lemma PublishedPayloadIgnoresMessage(producer: Producer)
    requires producer.Producer?
    ensures var a := CreateMessage(5, 1, "hi", Ok(1), producer);
            var b := CreateMessage(7, 2, "bye", Ok(2), producer);
            a.published.Some? && a.published == b.published
  {
  }

  /** An encoding of messages from which the message can be read back. */
  ghost predicate Injective(marshal: Message -> string)
  {
    forall m1, m2 :: marshal(m1) == marshal(m2) ==> m1 == m2
  }

  /**
   * As intended, with the stored message marshalled: the published record determines the
   * message, its id, room, user and content.
   */
  lemma PublishedPayloadIdentifiesMessage(marshal: Message -> string, producer: Producer,
                                          room1: int, user1: int, content1: string, inserted1: Result<int>,
                                          room2: int, user2: int, content2: string, inserted2: Result<int>)
    requires Injective(marshal)
    ensures var a := CreateMessageWith(marshal, room1, user1, content1, inserted1, producer);
            var b := CreateMessageWith(marshal, room2, user2, content2, inserted2, producer);
            a.published.Some? && a.published == b.published ==>
              inserted1 == inserted2 && room1 == room2 && user1 == user2 && content1 == content2
  {
    var a := CreateMessageWith(marshal, room1, user1, content1, inserted1, producer);
    var b := CreateMessageWith(marshal, room2, user2, content2, inserted2, producer);
    if a.published.Some? && a.published == b.published {
      assert marshal(Message(inserted1.value, room1, user1, content1))
          == marshal(Message(inserted2.value, room2, user2, content2));
    }
  }

  /** The repository's read, delete and update methods, which the service passes through. */
  datatype MessageRepository = MessageRepository(
    roomMessages: int -> Result<seq<Message>>,
    delete: (int, int) -> Option<Error>,
    update: (int, int, string) -> Option<Error>)

  /** MessageService.GetRoomMessages: the repository's answer, passed through. */
  function GetRoomMessages(repo: MessageRepository, roomId: int): (r: Result<seq<Message>>)
    ensures r == repo.roomMessages(roomId)
  {
    repo.roomMessages(roomId)
  }

  /** MessageService.DeleteMessage: the message id first, then the user id, as the repository takes them. */
  function DeleteMessage(repo: MessageRepository, messageId: int, userId: int): (r: Option<Error>)
    ensures r == repo.delete(messageId, userId)
  {
    repo.delete(messageId, userId)
  }

  /** MessageService.UpdateMessage, passed through likewise. */
  function UpdateMessage(repo: MessageRepository, messageId: int, userId: int, content: string): (r: Option<Error>)
    ensures r == repo.update(messageId, userId, content)
  {
    repo.update(messageId, userId, content)
  }
}
