/** `/api/contact`: a contact-form message is checked for its four fields and
    stored exactly as sent. */
module ContactRoute {
  import opened Wrappers
  import opened Store
  import opened SupabaseData

  /** A JSON object with string fields, as the form posts it; the route stores
      whatever object it receives. */
  type Message = map<string, string>

  const RequiredFields: seq<string> := ["name", "email", "subject", "message"]

  datatype ContactResponse =
    | Sent(message: Record<Message>)   // `{ success: true, message: <stored row> }`
    | BadRequest(error: string)
    | ServerError(error: string)
  {
    function Status(): nat
    {
      match this
      case Sent(_) => 200
      case BadRequest(_) => 400
      case ServerError(_) => 500
    }
  }

  /** `!field` for a field of the object: absent or empty. */
  predicate Blank(body: Message, field: string)
  {
    field !in body || body[field] == ""
  }

  predicate MissingRequired(body: Message)
  {
    exists k :: 0 <= k < |RequiredFields| && Blank(body, RequiredFields[k])
  }

  /** The four named fields decide the check, and nothing else does. */
  lemma RequiredFieldsGuard(body: Message, extra: string, value: string)
    requires extra !in RequiredFields
    ensures MissingRequired(body) <==>
      Blank(body, "name") || Blank(body, "email") || Blank(body, "subject") || Blank(body, "message")
    ensures MissingRequired(body[extra := value]) == MissingRequired(body)
  {
    if MissingRequired(body[extra := value]) {
      var k :| 0 <= k < |RequiredFields| && Blank(body[extra := value], RequiredFields[k]);
      assert Blank(body, RequiredFields[k]);
    }
    if MissingRequired(body) {
      var k :| 0 <= k < |RequiredFields| && Blank(body, RequiredFields[k]);
      assert Blank(body[extra := value], RequiredFields[k]);
    }
    if Blank(body, "name") { assert Blank(body, RequiredFields[0]); }
    if Blank(body, "email") { assert Blank(body, RequiredFields[1]); }
    if Blank(body, "subject") { assert Blank(body, RequiredFields[2]); }
    if Blank(body, "message") { assert Blank(body, RequiredFields[3]); }
  }

  /** `POST`: None is a body that is not JSON. A blank required field answers 400
      and stores nothing; otherwise the body is stored unchanged and the stored
      row returned; a database error answers 500. */
  method Post(messages: Table<Message>, body: Option<Message>, now: int, dbFails: bool)
    returns (resp: ContactResponse)
    requires messages.Valid()
    modifies messages
    ensures messages.Valid()
    ensures resp.Status() == 400 <==> body.Some? && MissingRequired(body.value)
    ensures resp.BadRequest? ==> resp.error == "All fields are required"
    ensures resp.Status() == 500 <==> body.None? || (!MissingRequired(body.value) && dbFails)
    ensures resp.ServerError? ==> resp.error == "Failed to save message"
    ensures !resp.Sent? ==> messages.rows == old(messages.rows) && messages.nextId == old(messages.nextId)
    ensures resp.Sent? ==> resp.message == Record(old(messages.nextId), now, body.value)
                           && messages.rows == old(messages.rows) + [resp.message]
  {
    if body.None? {
      return ServerError("Failed to save message");
    }
    var b := body.value;
    RequiredFieldsGuard(b, "", "");
    if Blank(b, "name") || Blank(b, "email") || Blank(b, "subject") || Blank(b, "message") {
      return BadRequest("All fields are required");
    }
    var r := Create(messages, b, now, dbFails);
    if r.Err? {
      return ServerError("Failed to save message");
    }
    resp := Sent(r.value);
  }
}
