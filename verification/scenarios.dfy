/** Command sequences a client may send, and what the server makes of them. */
module Scenarios {

  import opened Wrappers
  import opened Lists
  import opened Text
  import opened Codes
  import opened Validate
  import opened Reply
  import opened Sessions
  import opened IrcServer

  /** A nickname of at most nine characters that `valid_nick` accepts is kept whole and is not
      the placeholder of a connection without one. */
  lemma UsableNick(nick: string)
    requires ValidNick(nick) && |nick| <= MaxNickLen
    ensures Take(nick, MaxNickLen) == nick && nick != UnsetNick
  {
    assert nick[0] != '*';
  }

  /** `NICK` then `USER`: the second command registers the session and it is greeted. */
  method NickThenUser(host: string, nick: string, realname: string) returns (srv: Server, s: Session)
    requires ValidNick(nick) && |nick| <= MaxNickLen && realname != ""
    ensures srv.Valid() && s in srv.sessions
    ensures srv.users == map[nick := s] && s.registered && s.nick == nick && s.realname == Some(realname)
    ensures s.outbox == srv.Welcome(nick)
  {
    srv := new Server(host);
    s := new Session();
    srv.Admit(s);
    UsableNick(nick);
    srv.CmdNick(s, [nick]);
    srv.CmdUser(s, ["guest", "0", "*", realname]);
  }

  /** `USER` then `NICK`: the same outcome, reached the other way round. */
  method UserThenNick(host: string, nick: string, realname: string) returns (srv: Server, s: Session)
    requires ValidNick(nick) && |nick| <= MaxNickLen && realname != ""
    ensures srv.Valid() && s in srv.sessions
    ensures srv.users == map[nick := s] && s.registered && s.nick == nick && s.realname == Some(realname)
    ensures s.outbox == srv.Welcome(nick)
  {
    srv := new Server(host);
    s := new Session();
    srv.Admit(s);
    UsableNick(nick);
    srv.CmdUser(s, ["guest", "0", "*", realname]);
    srv.CmdNick(s, [nick]);
  }

  /** A password sent first is accepted silently and changes nothing. */
  method PassNickUser(host: string, password: string, nick: string, realname: string) returns (srv: Server, s: Session)
    requires ValidNick(nick) && |nick| <= MaxNickLen && realname != ""
    ensures srv.Valid() && s in srv.sessions
    ensures srv.users == map[nick := s] && s.registered && s.nick == nick
    ensures s.outbox == srv.Welcome(nick)
  {
    srv := new Server(host);
    s := new Session();
    srv.Admit(s);
    srv.CmdPass(s, [password]);
    UsableNick(nick);
    srv.CmdNick(s, [nick]);
    srv.CmdUser(s, ["guest", "0", "*", realname]);
  }

  /** An empty real name: after `USER` the later `NICK` does not register the session, because
      `cmd_nick` tests the real name for truth ... */
  method EmptyRealnameFirst(host: string, nick: string) returns (srv: Server, s: Session)
    requires ValidNick(nick) && |nick| <= MaxNickLen
    ensures srv.Valid() && s in srv.sessions
    ensures srv.users == map[] && !s.registered && s.nick == nick && s.realname == Some("")
    ensures s.outbox == []
  {
    srv := new Server(host);
    s := new Session();
    srv.Admit(s);
    UsableNick(nick);
    srv.CmdUser(s, ["guest", "0", "*", ""]);
    srv.CmdNick(s, [nick]);
  }

  /** ... while `USER` after `NICK` registers it, because `cmd_user` only tests the nickname. */
  method EmptyRealnameLast(host: string, nick: string) returns (srv: Server, s: Session)
    requires ValidNick(nick) && |nick| <= MaxNickLen
    ensures srv.Valid() && s in srv.sessions
    ensures srv.users == map[nick := s] && s.registered && s.nick == nick && s.realname == Some("")
    ensures s.outbox == srv.Welcome(nick)
  {
    srv := new Server(host);
    s := new Session();
    srv.Admit(s);
    UsableNick(nick);
    srv.CmdNick(s, [nick]);
    srv.CmdUser(s, ["guest", "0", "*", ""]);
  }

  /** A session that has not registered is refused JOIN with 451 and joins nothing. */
  method JoinBeforeRegistering(host: string, name: string) returns (srv: Server, s: Session, unsupported: bool)
    ensures srv.Valid() && s in srv.sessions
    ensures !unsupported && srv.channels == map[] && s.channels == []
    ensures s.outbox == [ReplyLine(host, ErrNotRegistered, UnsetNick, [":You have not registered"])]
  {
    srv := new Server(host);
    s := new Session();
    srv.Admit(s);
    unsupported := srv.Command(s, "", "join", [name]);
  }

  /** Two connections that both send `NICK n` before registering are both accepted, since the
      table holds registered nicknames only; both then register under `n`, and the table keeps
      the later one. */
  method SharedNick(host: string, nick: string, realname: string) returns (srv: Server, a: Session, b: Session)
    requires ValidNick(nick) && |nick| <= MaxNickLen && realname != ""
    ensures srv.Valid() && a in srv.sessions && b in srv.sessions && a != b
    ensures a.registered && b.registered && a.nick == nick && b.nick == nick
    ensures srv.users == map[nick := b]
  {
    srv := new Server(host);
    a := new Session();
    srv.Admit(a);
    b := new Session();
    srv.Admit(b);
    UsableNick(nick);
    NameBoth(srv, a, b, nick);
    RegisterBoth(srv, a, b, nick, realname);
  }

  /** The two `NICK` commands of the scenario above: neither is refused. */
  method NameBoth(srv: Server, a: Session, b: Session, nick: string)
    requires srv.Valid() && a in srv.sessions && b in srv.sessions && a != b
    requires srv.users == map[] && ValidNick(nick) && Take(nick, MaxNickLen) == nick
    requires !a.registered && !b.registered && a.realname == None && b.realname == None
    modifies srv`users, a`nick, a`registered, b`nick, b`registered, srv.sessions`outbox
    ensures srv.Valid() && srv.users == map[] && a.nick == nick && b.nick == nick
    ensures !a.registered && !b.registered
  {
    srv.CmdNick(a, [nick]);
    assert srv.users == map[] && a.nick == nick && !a.registered;
    srv.CmdNick(b, [nick]);
  }

  /** The two `USER` commands of the scenario above. */
  method RegisterBoth(srv: Server, a: Session, b: Session, nick: string, realname: string)
    requires srv.Valid() && a in srv.sessions && b in srv.sessions && a != b
    requires srv.users == map[] && a.nick == nick && b.nick == nick && nick != UnsetNick
    requires !a.registered && !b.registered
    modifies srv`users, a`realname, a`registered, b`realname, b`registered, srv.sessions`outbox
    ensures srv.Valid() && a.registered && b.registered && a.nick == nick && b.nick == nick
    ensures srv.users == map[nick := b]
  {
    UserRegisters(srv, a, realname);
    UserRegisters(srv, b, realname);
  }

  /** `USER` from a session with a pending nickname registers it under that nickname, whatever
      the table held there before. */
  method UserRegisters(srv: Server, s: Session, realname: string)
    requires srv.Valid() && s in srv.sessions && !s.registered && s.nick != UnsetNick
    modifies srv`users, s`realname, s`registered, srv.sessions`outbox
    ensures srv.Valid() && srv.users == old(srv.users)[s.nick := s] && s.registered
  {
    srv.CmdUser(s, ["guest", "0", "*", realname]);
  }

  /** Joining a channel and parting it again leaves the session's channel list and the
      channel's member list as they were (a channel created by the join stays, empty). */
  method JoinThenPart(srv: Server, user: Session, name: string)
    requires srv.Valid() && user in srv.sessions && ValidChan(name)
    requires name in srv.channels ==> srv.channels[name] !in user.channels
    modifies srv`channels, user`channels, srv.channels.Values`users, srv.sessions`outbox
    ensures srv.Valid() && name in srv.channels && user.channels == old(user.channels)
    ensures srv.channels[name].users == if name in old(srv.channels) then old(srv.channels[name].users) else []
  {
    ghost var before := user.channels;
    ghost var members := if name in srv.channels then srv.channels[name].users else [];
    assert user !in members;
    srv.CmdJoin(user, [name]);
    ghost var chan := srv.channels[name];
    assert chan.users == members + [user] && user.channels == before + [chan];
    assert chan !in before;
    srv.CmdPart(user, [name]);
    RemoveFirstAppended(before, chan);
    RemoveFirstAppended(members, user);
  }

  /** Once registered, PASS and USER are refused with 462 and NICK to the session's own nickname
      with 433, since that nickname is now a key of the table; nothing else changes. */
  method AfterRegistering(srv: Server, s: Session, realname: string)
    requires srv.Valid() && s in srv.sessions && s.registered
    requires s.nick in srv.users && srv.users[s.nick] == s
    requires ValidNick(s.nick) && |s.nick| <= MaxNickLen
    modifies srv`users, s`nick, s`registered, s`realname, srv.sessions`outbox
    ensures srv.Valid() && srv.users == old(srv.users) && s.registered && s.nick == old(s.nick)
    ensures s.realname == old(s.realname)
    ensures s.outbox == old(s.outbox) +
                        [ReplyLine(srv.host, ErrAlreadyRegistered, s.nick, [":You may not reregister"]),
                         ReplyLine(srv.host, ErrAlreadyRegistered, s.nick, [":You may not reregister"]),
                         ReplyLine(srv.host, ErrNicknameInUse, s.nick, [s.nick, ":Nickname is already in use"])]
    ensures srv.sessions == old(srv.sessions)
    ensures forall t :: t in srv.sessions && t != s ==> t.outbox == old(t.outbox)
  {
    ReregisterRefused(srv, s, realname);
    UsableNick(s.nick);
    srv.CmdNick(s, [s.nick]);
  }

  /** The PASS and USER of the scenario above. */
  method ReregisterRefused(srv: Server, s: Session, realname: string)
    requires srv.Valid() && s in srv.sessions && s.registered
    modifies srv`users, s`registered, s`realname, srv.sessions`outbox
    ensures srv.Valid() && srv.users == old(srv.users) && s.registered && s.nick == old(s.nick)
    ensures s.realname == old(s.realname)
    ensures s.outbox == old(s.outbox) +
                        [ReplyLine(srv.host, ErrAlreadyRegistered, s.nick, [":You may not reregister"]),
                         ReplyLine(srv.host, ErrAlreadyRegistered, s.nick, [":You may not reregister"])]
    ensures srv.sessions == old(srv.sessions)
    ensures forall t :: t in srv.sessions && t != s ==> t.outbox == old(t.outbox)
  {
    srv.CmdPass(s, ["secret"]);
    srv.CmdUser(s, ["guest", "0", "*", realname]);
  }
}
