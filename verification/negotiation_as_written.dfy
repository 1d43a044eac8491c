/** The nickname loop of `run()` exactly as written, for the one case the
    main model corrects: the read of a re-prompted nickname hits
    end of stream or throws.  Java's `nickname` field can then be null, so
    here the registries' keys are nullable (None is null). */
module NegotiationAsWritten {
  import opened Optional
  import opened ChatRoom
  import opened Server
  import opened ServerInvariants

  datatype NullableRegistries = NullableRegistries(nicknames: set<Option<string>>, clients: map<Option<string>, ClientId>)

  /** Where the handler ends up: its thread finished, or it spins in the
      `while (nicknames.contains(nickname))` loop for ever. */
  datatype Ending = Finished(registries: NullableRegistries) | Spinning(registries: NullableRegistries)

  function Lift(s: State): NullableRegistries {
    NullableRegistries(set n | n in s.nicknames :: Some(n), map n | n in s.clients :: Some(n) := s.clients[n])
  }

  /** Session c was re-prompted after offering `candidate` and its next read
      fails.  A read error leaves `nickname` holding the rejected candidate,
      which the finally block removes from both registries.  End of stream
      sets `nickname` to null; null is then accepted as a fresh name and
      registered, the command loop reads end of stream at once, and the
      finally block skips its cleanup because the nickname is null; if null
      is already registered the loop never exits. */
  function AbandonNegotiationAsWritten(reg: NullableRegistries, c: ClientId, candidate: string, e: Event): (r: Ending)
    requires !e.Line?
  {
    match e
    case ReadError =>
      Finished(NullableRegistries(reg.nicknames - {Some(candidate)}, reg.clients - {Some(candidate)}))
    case EndOfStream =>
      if None in reg.nicknames then Spinning(reg)
      else Finished(NullableRegistries(reg.nicknames + {None}, reg.clients[None := c]))
  }

  /** The candidate was re-prompted because another session holds it; a read
      error on the retry deletes that other session's registration while it
      is still connected under that name, so it no longer receives whispers
      and a later client may register the same nickname. */
  lemma ReadErrorUnregistersOwner(s: State, c: ClientId, candidate: string)
    requires Inv(s) && c < |s.sessions| && s.sessions[c] == Retrying(candidate)
    requires candidate in s.nicknames
    ensures var owner := s.clients[candidate];
      && owner != c && IsChatting(s, owner) && s.sessions[owner].nickname == candidate
      && Some(candidate) in Lift(s).nicknames
      && var r := AbandonNegotiationAsWritten(Lift(s), c, candidate, ReadError);
         r.Finished? && Some(candidate) !in r.registries.nicknames && Some(candidate) !in r.registries.clients
  {
  }

  /** End of stream on the retry leaves a null nickname registered for a
      session that has gone, and no later cleanup removes it. */
  lemma EndOfStreamRegistersNull(s: State, c: ClientId, candidate: string)
    requires Inv(s) && c < |s.sessions| && s.sessions[c] == Retrying(candidate)
    ensures None !in Lift(s).nicknames
    ensures var r := AbandonNegotiationAsWritten(Lift(s), c, candidate, EndOfStream);
      && r.Finished?
      && None in r.registries.nicknames && r.registries.clients[None] == c
  {
  }

  /** The same path entered from the first prompt: the first read reaches
      end of stream, the generated anonymous name is taken, and the re-prompt
      reads end of stream again.  As written null ends up registered; the
      corrected model leaves the registries as they were. */
  lemma FirstEndOfStreamRegistersNull(s: State, c: ClientId)
    requires Inv(s) && c < |s.sessions| && s.sessions[c].AwaitingNickname?
    requires s.sessions[c].anonymous in s.nicknames
    ensures None !in Lift(s).nicknames
    ensures var r := AbandonNegotiationAsWritten(Lift(s), c, s.sessions[c].anonymous, EndOfStream);
      && r.Finished?
      && None in r.registries.nicknames && r.registries.clients[None] == c
    ensures Step(s, c, EndOfStream).state.nicknames == s.nicknames
  {
    ReplaceUnregistered(s, c, Retrying(s.sessions[c].anonymous));
    EndOfStreamRegistersNull(s.(sessions := s.sessions[c := Retrying(s.sessions[c].anonymous)]), c, s.sessions[c].anonymous);
  }

  /** Once a null nickname is registered, the next session to reach end of
      stream while re-prompted never leaves the nickname loop. */
  lemma SecondEndOfStreamSpins(reg: NullableRegistries, c: ClientId, candidate: string)
    requires None in reg.nicknames
    ensures AbandonNegotiationAsWritten(reg, c, candidate, EndOfStream) == Spinning(reg)
  {
  }
}
