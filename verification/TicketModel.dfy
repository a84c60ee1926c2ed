/**
 * Ticket values of `crates/qingyin-security/src/ticket/model.rs` and `principal.rs`: secrets, bindings, the
 * stored form of a binding, and the lifetime policy. `lenient` stands for what the base64 decoder does with
 * left-over bits; every result below holds for both choices.
 */
module TicketModel {
  import opened Wrappers
  import opened StateModel
  import opened TtlStore
  import opened Base64Url

  const DIGEST_BYTES: nat := 32
  const MAX_SECRET_STRING_BYTES: nat := 16 * 1024
  const STORED_TICKET_VERSION: nat := 1

  type Digest = bytes: seq<Byte> | |bytes| == 32 witness seq(32, i => 0)

  datatype SecurityError =
    | PermissionDenied
    | TenantScopeMismatch
    | TicketRejected
    | TicketCollision
    | EntropyUnavailable
    | InvalidSecurityArgument(argument: string)
    | EncodingFailure
    | StateUnavailable

  datatype TicketSecret = TicketSecret(text: string)

  function FromTransport(text: string, lenient: bool): Result<TicketSecret, SecurityError> {
    match Decode(text, lenient)
    case None => Err(TicketRejected)
    case Some(decoded) =>
      if |decoded| != DIGEST_BYTES then Err(TicketRejected)
      else if Encode(decoded) != text then Err(TicketRejected)
      else if text == "" || |text| > MAX_SECRET_STRING_BYTES then Err(InvalidSecurityArgument("secret"))
      else Ok(TicketSecret(text))
  }

  function FromEntropy(bytes: Digest, lenient: bool): Result<TicketSecret, SecurityError> {
    FromTransport(Encode(bytes), lenient)
  }

  /**
   * The transport form is a bijection with 32-byte values, whatever the decoder does with left-over bits:
   * exactly the encodings of such values are accepted, every other text is rejected with one error, and the
   * accepted text is kept as it is. No entropy can fail to become a ticket.
   */
  lemma TransportIsExact(text: string, lenient: bool)
    ensures FromTransport(text, lenient).Ok? <==> exists bytes: Digest :: text == Encode(bytes)
    ensures FromTransport(text, lenient).Ok? ==> FromTransport(text, lenient).value.text == text
    ensures FromTransport(text, lenient).Err? ==> FromTransport(text, lenient).error == TicketRejected
    ensures forall bytes: Digest :: FromEntropy(bytes, lenient) == Ok(TicketSecret(Encode(bytes)))
    ensures forall a: Digest, b: Digest :: Encode(a) == Encode(b) ==> a == b
  {
    forall bytes: Digest
      ensures FromTransport(Encode(bytes), lenient) == Ok(TicketSecret(Encode(bytes)))
    {
      DecodeEncode(bytes, lenient);
      EncodedLength(bytes);
    }
    forall a: Digest, b: Digest | Encode(a) == Encode(b)
      ensures a == b
    {
      EncodeIsInjective(a, b);
    }
    if Decode(text, lenient).Some? && |Decode(text, lenient).value| == DIGEST_BYTES {
      var bytes: Digest := Decode(text, lenient).value;
      if Encode(bytes) == text {
        EncodedLength(bytes);
      }
    }
  }

  datatype TicketChannel = AsrWebSocket | TtsWebSocket | RealtimeWebSocket | TtsHttpStream

  datatype TicketLifecycle = Unused | Consumed

  /** Scopes other than the one a ticket needs are told apart only by number. */
  datatype Scope = StreamConnect | OtherScope(number: nat)

  datatype Principal = Principal(tenantScope: TenantScope, scopes: set<Scope>, digest: Digest)

  function AuthorizeResource(principal: Principal, resource: TenantScope, required: Scope): Result<(), SecurityError> {
    if required !in principal.scopes then Err(PermissionDenied)
    else if principal.tenantScope != resource then Err(TenantScopeMismatch)
    else Ok(())
  }

  datatype TicketBinding = TicketBinding(
    tenantScope: TenantScope,
    sessionId: string,
    principalDigest: Digest,
    channel: TicketChannel,
    clientBinding: Option<Digest>)

  function BindingForContext(
      principal: Principal, target: TenantScope, sessionId: string, channel: TicketChannel, client: Option<Digest>):
      Result<TicketBinding, SecurityError>
  {
    match AuthorizeResource(principal, target, StreamConnect)
    case Err(error) => Err(error)
    case Ok(_) => Ok(TicketBinding(target, sessionId, principal.digest, channel, client))
  }

  /** The JSON record kept under a ticket's digest. */
  datatype StoredTicket = StoredTicket(
    version: nat,
    lifecycle: TicketLifecycle,
    organizationId: string,
    workspaceId: string,
    projectId: string,
    environmentId: string,
    sessionId: string,
    principalDigest: string,
    channel: TicketChannel,
    clientBinding: Option<string>)
  {
    predicate Matches(expected: TicketBinding, lenient: bool) {
      var scope := expected.tenantScope;
      if || lifecycle != Unused
         || organizationId != scope.organizationId
         || workspaceId != scope.workspaceId
         || projectId != scope.projectId
         || environmentId != scope.environmentId
         || sessionId != expected.sessionId
         || channel != expected.channel
      then
        false
      else if DigestOf(principalDigest, lenient) != Some(expected.principalDigest) then
        false
      else
        match (clientBinding, expected.clientBinding)
        case (None, None) => true
        case (Some(stored), Some(client)) => DigestOf(stored, lenient) == Some(client)
        case _ => false
    }
  }

  /** `from_encoded` of both digest types: any decodable text of 32 bytes, canonical or not. */
  function DigestOf(text: string, lenient: bool): Option<Digest> {
    match Decode(text, lenient)
    case None => None
    case Some(bytes) => if |bytes| == DIGEST_BYTES then Some(bytes) else None
  }

  function FromBinding(binding: TicketBinding): StoredTicket {
    StoredTicket(
      STORED_TICKET_VERSION,
      Unused,
      binding.tenantScope.organizationId,
      binding.tenantScope.workspaceId,
      binding.tenantScope.projectId,
      binding.tenantScope.environmentId,
      binding.sessionId,
      Encode(binding.principalDigest),
      binding.channel,
      match binding.clientBinding case None => None case Some(client) => Some(Encode(client)))
  }

  /** What was stored for a binding matches that binding and no other. */
  lemma MatchesOnlyItself(binding: TicketBinding, expected: TicketBinding, lenient: bool)
    ensures FromBinding(binding).Matches(expected, lenient) <==> binding == expected
  {
    DecodeEncode(binding.principalDigest, lenient);
    if binding.clientBinding.Some? {
      DecodeEncode(binding.clientBinding.value, lenient);
    }
  }

  /** A strict decoder accepts of all stored tickets exactly the unused one of the binding. */
  lemma MatchesStrictly(stored: StoredTicket, expected: TicketBinding)
    requires stored.version == STORED_TICKET_VERSION
    ensures stored.Matches(expected, false) <==> stored == FromBinding(expected)
    ensures stored.Matches(expected, false) ==> stored.Matches(expected, true)
  {
    StrictDecodeIsExact(stored.principalDigest, expected.principalDigest);
    DecodeEncode(expected.principalDigest, true);
    if stored.clientBinding.Some? && expected.clientBinding.Some? {
      StrictDecodeIsExact(stored.clientBinding.value, expected.clientBinding.value);
      DecodeEncode(expected.clientBinding.value, true);
    }
  }

  /**
   * Only a principal holding the scope gets a binding, and only to its own tenant and digest, for the session,
   * channel and client that it asked for.
   */
  lemma BindingsStayInTenant(
      principal: Principal, target: TenantScope, sessionId: string, channel: TicketChannel, client: Option<Digest>)
    ensures BindingForContext(principal, target, sessionId, channel, client) ==
      if StreamConnect !in principal.scopes then Err(PermissionDenied)
      else if target != principal.tenantScope then Err(TenantScopeMismatch)
      else Ok(TicketBinding(principal.tenantScope, sessionId, principal.digest, channel, client))
  {
  }

  /** `TicketPolicy::new`: one second to five minutes in whole milliseconds. */
  function NewPolicy(ttl: Duration): Result<Duration, SecurityError> {
    if !(NANOS_PER_SECOND <= ttl <= 300 * NANOS_PER_SECOND) || ttl % NANOS_PER_SECOND % NANOS_PER_MILLI != 0 then
      Err(InvalidSecurityArgument("ticket_ttl"))
    else
      Ok(ttl)
  }

  lemma PolicyIsWholeMillis(ttl: Duration)
    ensures NewPolicy(ttl).Ok? <==> exists millis: nat :: 1000 <= millis <= 300_000 && ttl == millis * NANOS_PER_MILLI
    ensures NewPolicy(ttl).Ok? ==> ttl == AsMillis(ttl) * NANOS_PER_MILLI && 1000 <= AsMillis(ttl) <= 300_000
  {
    assert ttl % NANOS_PER_SECOND % NANOS_PER_MILLI == ttl % NANOS_PER_MILLI by {
      var q, r := ttl / NANOS_PER_SECOND, ttl % NANOS_PER_SECOND;
      assert ttl == q * 1000 * NANOS_PER_MILLI + r;
    }
    assert ttl == ttl / NANOS_PER_MILLI * NANOS_PER_MILLI + ttl % NANOS_PER_MILLI;
  }
}
