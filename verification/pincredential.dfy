/** `PinCredentialModel`, in its three forms: a Keycloak credential whose
    secret blob is the JSON of a one-property bean holding the PIN (in the
    `authenticator-demographic` and `authenticator-pin` modules), and the
    question-and-answer form whose credential-data blob holds the question
    (the `authenticator.pin` package). */
module PinCredentials {
  import opened Wrappers
  import opened Users
  import opened JacksonBeans

  const PinType := "PIN"

  /** Property names of the blobs' beans. */
  const PinProperty := "pin"
  const QuestionProperty := "question"
  const AnswerProperty := "answer"

  /** What `RuntimeException(e)` wraps: the checked parsing exception. */
  const WrappedIo := "java.io.IOException"

  /** A single-blob `PinCredentialModel`: the credential fields it carries
      and its decoded secret bean, which is null when the blob was `null`. */
  datatype PinCredential = PinCredential(base: Credential, secret: Option<Bean>)

  /** The public `PinCredentialModel(String)` constructor: only the bean is
      set; type, blob and creation date stay unset. */
  function NewPin(answer: Option<string>): (p: PinCredential)
    ensures p.base == NoCredential
    ensures p.secret == Some(Bean(answer))
  {
    PinCredential(NoCredential, Some(Bean(answer)))
  }

  /** `createPin(answer)` at time `now`: the bean, written into the secret
      blob, type `PIN` and the creation date. The answer is not checked. */
  function CreatePin(answer: Option<string>, now: int): (p: PinCredential)
    ensures p.base.credType == Some(PinType) && p.base.createdDate == Some(now)
    ensures p.base.secretData == Some(WriteBean(PinProperty, Bean(answer)))
    ensures p.base.id.None? && p.base.userLabel.None? && p.base.credentialData.None?
    ensures p.secret == Some(Bean(answer))
  {
    var p := NewPin(answer);
    p.(base := p.base.(secretData := Some(WriteBean(PinProperty, Bean(answer))),
                       credType := Some(PinType), createdDate := Some(now)))
  }

  /** `createFromCredentialModel(model)`: decodes the secret blob, then
      copies id, label, creation date and the raw blob, and sets type `PIN`
      whatever the stored type. A null model is a null-pointer exception, a
      null blob Jackson's illegal argument, and an undecodable blob a
      runtime exception wrapping the parsing one. */
  function FromCredential(c: Option<Credential>): (r: Result<PinCredential>)
    ensures c.None? ==> r == Err(NullPointer)
    ensures r.Ok? <==> c.Some? && ReadBean(PinProperty, c.value.secretData).Ok?
    ensures r.Ok? ==> r.value.base == c.value.(credType := Some(PinType), credentialData := None)
    ensures r.Ok? ==> r.value.secret == ReadBean(PinProperty, c.value.secretData).value
    ensures c.Some? && c.value.secretData.None? ==> r == Err(IllegalArgument(NullContent))
    ensures c.Some? && c.value.secretData.Some? && r.Err? ==> r == Err(Runtime(WrappedIo))
  {
    match c
    case None => Err(NullPointer)
    case Some(m) =>
      match ReadBean(PinProperty, m.secretData)
      case Err(IllegalArgument(msg)) => Err(IllegalArgument(msg))
      case Err(_) => Err(Runtime(WrappedIo))
      case Ok(secret) =>
        Ok(PinCredential(Credential(m.id, Some(PinType), m.userLabel, m.createdDate, m.secretData, None), secret))
  }

  /** `getPinSecretData().getPin()`: a null bean is a null-pointer
      exception; the PIN itself may be null. */
  function PinOf(p: PinCredential): (r: Result<Option<string>>)
    ensures r.Err? <==> p.secret.None?
    ensures r.Err? ==> r.error == NullPointer
    ensures r.Ok? ==> r.value == p.secret.value.value
  {
    match p.secret
    case None => Err(NullPointer)
    case Some(b) => Ok(b.value)
  }

  /** Round trip: a created PIN credential decodes to itself, and its PIN
      is the one it was created with. */
  lemma FromCreatePin(answer: Option<string>, now: int)
    ensures FromCredential(Some(CreatePin(answer, now).base)) == Ok(CreatePin(answer, now))
    ensures PinOf(CreatePin(answer, now)) == Ok(answer)
  {
    ReadWriteBean(PinProperty, Bean(answer));
  }

  /** Decoding forgets the stored type: two stored credentials that differ
      only in their type decode alike. */
  lemma FromCredentialForcesType(c: Credential, t: Option<string>)
    ensures FromCredential(Some(c)) == FromCredential(Some(c.(credType := t)))
  {
  }

  // ---------------------------------------------- question-and-answer form

  /** The `authenticator.pin` model: the question bean from the
      credential-data blob and the answer bean from the secret blob. */
  datatype QuestionPin = QuestionPin(base: Credential, question: Option<Bean>, answer: Option<Bean>)

  /** `createPin(question, answer)` at time `now`. */
  function CreateQuestionPin(question: Option<string>, answer: Option<string>, now: int): (p: QuestionPin)
    ensures p.base.credentialData == Some(WriteBean(QuestionProperty, Bean(question)))
    ensures p.base.secretData == Some(WriteBean(AnswerProperty, Bean(answer)))
    ensures p.base.credType == Some(PinType) && p.base.createdDate == Some(now)
    ensures p.base.id.None? && p.base.userLabel.None?
    ensures p.question == Some(Bean(question)) && p.answer == Some(Bean(answer))
  {
    QuestionPin(
      Credential(None, Some(PinType), None, Some(now),
                 Some(WriteBean(AnswerProperty, Bean(answer))), Some(WriteBean(QuestionProperty, Bean(question)))),
      Some(Bean(question)), Some(Bean(answer)))
  }

  /** Jackson's failure as `createFromCredentialModel` lets it out. */
  function Rethrow<T>(r: Result<T>): (e: Exception)
    requires r.Err?
    ensures r.error.IllegalArgument? ==> e == r.error
    ensures !r.error.IllegalArgument? ==> e == Runtime(WrappedIo)
  {
    if r.error.IllegalArgument? then r.error else Runtime(WrappedIo)
  }

  /** `createFromCredentialModel(model)`: the credential-data blob is read
      first, so its failure wins; both raw blobs are copied and the type is
      set to `PIN`. */
  function FromQuestionCredential(c: Option<Credential>): (r: Result<QuestionPin>)
    ensures c.None? ==> r == Err(NullPointer)
    ensures r.Ok? <==> c.Some? && ReadBean(QuestionProperty, c.value.credentialData).Ok?
                                && ReadBean(AnswerProperty, c.value.secretData).Ok?
    ensures r.Ok? ==> r.value.base == c.value.(credType := Some(PinType))
    ensures r.Ok? ==> r.value.question == ReadBean(QuestionProperty, c.value.credentialData).value
    ensures r.Ok? ==> r.value.answer == ReadBean(AnswerProperty, c.value.secretData).value
    ensures c.Some? && ReadBean(QuestionProperty, c.value.credentialData).Err? ==>
              r == Err(Rethrow(ReadBean(QuestionProperty, c.value.credentialData)))
  {
    match c
    case None => Err(NullPointer)
    case Some(m) =>
      var q := ReadBean(QuestionProperty, m.credentialData);
      if q.Err? then Err(Rethrow(q))
      else
        var a := ReadBean(AnswerProperty, m.secretData);
        if a.Err? then Err(Rethrow(a))
        else Ok(QuestionPin(m.(credType := Some(PinType)), q.value, a.value))
  }

  /** Round trip: the question and the answer come back. */
  lemma FromCreateQuestionPin(question: Option<string>, answer: Option<string>, now: int)
    ensures FromQuestionCredential(Some(CreateQuestionPin(question, answer, now).base))
            == Ok(CreateQuestionPin(question, answer, now))
  {
    ReadWriteBean(QuestionProperty, Bean(question));
    ReadWriteBean(AnswerProperty, Bean(answer));
  }
}
