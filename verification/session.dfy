/** One client connection as the server sees it. The transport is left out: what the
    server sends is appended to `outbox`, in order. */
module Sessions {

  import opened Wrappers
  import opened Channels

  /** The nickname a connection has before a NICK command is accepted. */
  const UnsetNick := "*"

  class Session {
    var nick: string
    var registered: bool
    var realname: Option<string>
    var channels: seq<Channel<Session>>
    var outbox: seq<string>

    /** A fresh connection: no nickname, not registered, no real name, on no channel. */
    constructor()
      ensures nick == UnsetNick && !registered && realname == None
      ensures channels == [] && outbox == []
    {
      nick := UnsetNick;
      registered := false;
      realname := None;
      channels := [];
      outbox := [];
    }

    /** Sending one line appends it to what the connection has been sent. */
    method Send(line: string)
      modifies this`outbox
      ensures outbox == old(outbox) + [line]
    {
      outbox := outbox + [line];
    }
  }
}
