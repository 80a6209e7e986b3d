/** The part of the request handler that decides what the caller gets: the 400 answer
    for a blank name, the local result, and the guarded replacement of the local
    result by the parsed reply of the external model. */
module Handler {
  import opened Optional
  import opened Text
  import opened LocalScore
  import opened ReplyParser
  import ReplyScenarios

  /** The `data` the handler answers with: the local record itself or the parsed
      reply record itself. */
  datatype Chosen = Local(analysis: Analysis) | External(reply: Reply)

  /** The handler's answer: 400 for a blank name, otherwise 200 with the chosen data. */
  datatype Response = BadRequest | Ok(data: Chosen)

  /** The guard: a truthy score, not the sentinel 75, within 1..100. */
  predicate Overrides(score: Option<nat>) {
    && score.Some?
    && score.value != 0
    && score.value != 75
    && score.value >= 1
    && score.value <= 100
  }

  /** The guard at each of its edges. */
  lemma OverrideBoundaries()
    ensures !Overrides(None) && !Overrides(Some(0)) && !Overrides(Some(101))
    ensures Overrides(Some(1)) && Overrides(Some(74)) && Overrides(Some(76)) && Overrides(Some(100))
    ensures !Overrides(Some(75))
  {
  }

  /** `finalResult`: the parsed record when the guard lets it through, otherwise the
      local record unchanged. */
  function Choose(local: Analysis, parsed: Reply): (c: Chosen)
    ensures c.External? <==> parsed.score.Some? && 1 <= parsed.score.value <= 100 && parsed.score.value != 75
    ensures c.External? ==> c.reply == parsed
    ensures c.Local? ==> c.analysis == local
  {
    if Overrides(parsed.score) then External(parsed) else Local(local)
  }

  /** On what the parser produces the range checks of the guard are already settled;
      only the sentinel 75 decides. */
  lemma GuardOnParsedReply(response: string)
    ensures Overrides(Parse(response).score) <==> Parse(response).score.Some? && Parse(response).score.value != 75
  {
  }

  /** A reply whose last score line says 75 never replaces the local result, however
      complete the rest of it is. */
  lemma SeventyFiveNeverOverrides(local: Analysis, response: string)
    requires LastScore(Lines(response)) == Some(75)
    ensures Choose(local, Parse(response)) == Local(local)
  {
    ParseIsLastWrite(response);
  }

  /** The handler from the parsed body onward, with `reply` the text of the external
      model's answer, or `None` when no key is configured or the call failed. The
      name is blank exactly when the answer is 400. */
  function Handle(name: string, hanja: string, r: int, reply: Option<string>): (resp: Response)
    requires 0 <= r <= 9
    ensures resp.BadRequest? <==> All(name, 0, |name|, IsSpace)
    ensures resp.Ok? && resp.data.Local? ==> resp.data.analysis == Analyze(name, hanja, r)
    ensures resp.Ok? && resp.data.External? ==>
      && reply.Some?
      && resp.data.reply == Parse(reply.value)
      && resp.data.reply.score.Some?
      && 1 <= resp.data.reply.score.value <= 100
      && resp.data.reply.score.value != 75
    ensures !All(name, 0, |name|, IsSpace) && reply.Some? && Overrides(Parse(reply.value).score) ==>
      resp == Ok(External(Parse(reply.value)))
  {
    TrimEmptyIffBlank(name);
    if name == [] || |Trim(name)| == 0 then BadRequest
    else
      var local := Analyze(name, hanja, r);
      match reply
      case None => Ok(Local(local))
      case Some(text) => Ok(Choose(local, Parse(text)))
  }

  /** Without a reply, or with one the guard rejects, the answer is exactly the local
      result. */
  lemma HandleFallsBackToLocal(name: string, hanja: string, r: int, reply: Option<string>)
    requires 0 <= r <= 9
    requires !All(name, 0, |name|, IsSpace)
    requires reply.None? || !Overrides(Parse(reply.value).score)
    ensures Handle(name, hanja, r, reply) == Ok(Local(Analyze(name, hanja, r)))
  {
    TrimEmptyIffBlank(name);
  }

  /** A reply that only fixes the score replaces the whole local record: the answer
      then carries no grade, title or items. */
  lemma ScoreOnlyReplyDropsTexts(name: string, hanja: string, r: int, text: string)
    requires 0 <= r <= 9
    requires !All(name, 0, |name|, IsSpace)
    requires LastScore(Lines(text)) == Some(90)
    requires forall f :: LastText(Lines(text), f).None?
    ensures Handle(name, hanja, r, Some(text)) == Ok(External(Reply(Some(90), map[])))
  {
    TrimEmptyIffBlank(name);
    ParseIsLastWrite(text);
    var p := Parse(text);
    assert p.texts == map[] by {
      assert forall f :: f !in p.texts;
    }
  }

  /** `점수: 75` on its own: the parser accepts the reply, the guard discards it and the
      caller gets the local result. */
  lemma SeventyFiveReplyDiscarded(name: string, hanja: string, r: int)
    requires 0 <= r <= 9
    requires !All(name, 0, |name|, IsSpace)
    ensures Parse("점수: 75") == Reply(Some(75), map[])
    ensures Handle(name, hanja, r, Some("점수: 75")) == Ok(Local(Analyze(name, hanja, r)))
  {
    ReplyScenarios.SeventyFiveParsed();
    HandleFallsBackToLocal(name, hanja, r, Some("점수: 75"));
  }
}
