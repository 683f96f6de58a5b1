// src/irc/IrcEventBroker.ts: the object with the claims and the promises of the channels.

module IrcEventBroker {
  import opened Strings
  import Claims = EventClaims
  import Buffer = ChannelBuffer

  class IrcEventBroker {
    const processed: Claims.ProcessedDict
    var channelReqBuffer: Buffer.Buffer

    constructor ()
      ensures processed.processed == map[] && fresh(processed) && channelReqBuffer == map[]
    {
      processed := new Claims.ProcessedDict();
      channelReqBuffer := map[];
    }

    method AttemptClaim(live: set<string>, domain: string, nick: string, msg: Claims.Message, now: int) returns (ok: bool)
      modifies processed
      ensures (ok, processed.processed) == Claims.AttemptClaim(old(processed.processed), live, domain, nick, msg, now)
    {
      if msg.prefix == "" || msg.rawCommand == "" || msg.args.None? {
        return false;
      }
      var hash := msg.prefix + msg.rawCommand + Claims.Joined(msg.args.value);
      var handledByNick := Claims.GetClaimer(processed.processed, domain, hash);
      if handledByNick.None? || handledByNick.value == nick {
        processed.ClaimHash(domain, hash, nick, msg.rawCommand, now);
        return true;
      } else if handledByNick.value != "" {
        // another client owns the line: take it over if that one has no connection
        if handledByNick.value !in live {
          processed.ClaimHash(domain, hash, nick, msg.rawCommand, now);
          return true;
        }
      }
      return false;
    }

    method BufferRequestToChannel(channel: string, q: Buffer.Request) returns (slot: Buffer.Slot)
      modifies this
      ensures slot == Buffer.Buffered(Buffer.Existing(old(channelReqBuffer), channel, q.arrival), q)
      ensures channelReqBuffer == old(channelReqBuffer)[channel := slot]
    {
      var existing := Buffer.Settled(q.arrival);
      if channel in channelReqBuffer {
        existing := channelReqBuffer[channel];
      }
      var start := q.arrival + Buffer.BUFFER_TIMEOUT_MS;
      if existing.end.Some? && existing.end.value <= start {
        start := if existing.end.value < q.arrival then q.arrival else existing.end.value;
        if existing.nullRejection {
          slot := Buffer.Slot(None, Some(start), false);
          channelReqBuffer := channelReqBuffer[channel := slot];
          return;
        }
      }
      slot := Buffer.Slot(Some(start), if q.duration.Some? then Some(start + q.duration.value) else None, q.rejectsNull);
      channelReqBuffer := channelReqBuffer[channel := slot];
    }
  }
}
