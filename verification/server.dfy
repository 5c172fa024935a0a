/** The protocol state machine of the chat server: the table of registered nicknames, the
    table of channels, the command handlers that edit them and the replies they send. */
module IrcServer {

  import opened Wrappers
  import opened Lists
  import opened Text
  import opened Sorting
  import opened Codes
  import opened Validate
  import opened Parse
  import opened Reply
  import opened Channels
  import opened Sessions

  type Chan = Channel<Session>

  /** Nicknames are cut to this many characters before they are checked. */
  const MaxNickLen := 9

  /** The commands an unregistered session may not use. */
  const RegRequired := ["join", "part", "privmsg"]

  /** The command names the server has a `cmd_` handler for. */
  const Handlers := {"pass", "nick", "user", "quit", "join", "part", "list", "kick", "privmsg", "notice", "topic"}

  /** Everyone on some channel the session is on, the session itself included when it is on any. */
  function Neighbours(user: Session): set<Session>
    reads user`channels, user.channels
  {
    set c, s | c in user.channels && s in c.users :: s
  }

  /** The nicknames of a member list, in list order. */
  function Nicks(members: seq<Session>): (r: seq<string>)
    reads members`nick
    ensures |r| == |members|
    ensures forall i :: 0 <= i < |members| ==> r[i] == members[i].nick
  {
    if members == [] then [] else Nicks(members[..|members| - 1]) + [members[|members| - 1].nick]
  }

  class Server {
    const host: string
    const version: string
    const createdate: string

    var users: map<string, Session>
    var channels: map<string, Chan>

    /** The connections the transport has attached to this server. */
    ghost var sessions: set<Session>

    /** A channel is filed under its own name. */
    ghost predicate ChannelsFiled()
      reads this`channels
    {
      forall name :: name in channels ==> channels[name].name == name
    }

    /** A registered nickname maps to a registered session that carries it. */
    ghost predicate NicksOwned()
      reads this`users, this`sessions, sessions`nick, sessions`registered
    {
      forall nick :: nick in users ==>
        users[nick] in sessions && users[nick].registered && users[nick].nick == nick
    }

    /** Channel membership is kept in two places, the channel's member list and the session's
        channel list; they agree, and neither lists anything twice. */
    ghost predicate MembershipAgrees()
      reads this`sessions, this`channels, sessions`channels, channels.Values`users
    {
      (forall s, c :: s in sessions && c in s.channels ==> c in channels.Values && s in c.users) &&
      (forall c, s :: c in channels.Values && s in c.users ==> s in sessions && c in s.channels) &&
      (forall s :: s in sessions ==> Distinct(s.channels)) &&
      (forall c :: c in channels.Values ==> Distinct(c.users))
    }

    ghost predicate Valid()
      reads this, sessions`nick, sessions`registered, sessions`channels, channels.Values`users
    {
      ChannelsFiled() && NicksOwned() && MembershipAgrees()
    }

    /** A server starts with no nicknames and no channels. `host` stands for the fully
        qualified domain name the server looks up when it starts. */
    constructor(host: string)
      ensures this.host == host
      ensures version == "irc-sds-0.1" && createdate == "Thu Oct 24 2013 at 07:23:58 EST"
      ensures users == map[] && channels == map[] && sessions == {}
      ensures Valid()
    {
      this.host := host;
      version := "irc-sds-0.1";
      createdate := "Thu Oct 24 2013 at 07:23:58 EST";
      users := map[];
      channels := map[];
      sessions := {};
    }

    /** The transport attaches a new connection. */
    ghost method Admit(s: Session)
      requires Valid() && s !in sessions && s.channels == []
      modifies this`sessions
      ensures Valid() && sessions == old(sessions) + {s}
    {
      sessions := sessions + {s};
    }

    /** The four lines that greet a newly registered session. */
    function Welcome(nick: string): seq<string>
    {
      [ReplyLine(host, RplWelcome, nick, [":Welcome to the IRC Chat Server " + nick]),
       ReplyLine(host, RplYourHost, nick, [":Your host is " + host + ", running version " + version]),
       ReplyLine(host, RplCreated, nick, [":This server was created " + createdate]),
       ReplyLine(host, RplMyInfo, nick, [host + " " + version])]
    }

    // ---- what a command leaves unchanged, and what it sends ----

    twostate predicate UserKept(user: Session)
      reads user
    {
      user.nick == old(user.nick) && user.registered == old(user.registered) &&
      user.realname == old(user.realname) && user.channels == old(user.channels)
    }

    twostate predicate ChannelsKept()
      reads this, channels.Values
    {
      channels == old(channels) && forall c :: c in channels.Values ==> c.users == old(c.users)
    }

    /** Nothing but outboxes changed. */
    twostate predicate StateKept(user: Session)
      reads this, user, channels.Values
    {
      users == old(users) && ChannelsKept() && UserKept(user)
    }

    /** Only `user` was sent anything, and what it was sent is `lines`. */
    twostate predicate SentTo(user: Session, lines: seq<string>)
      reads this, sessions
    {
      sessions == old(sessions) &&
      forall s :: s in old(sessions) ==> s.outbox == old(s.outbox) + (if s == user then lines else [])
    }

    twostate predicate Silent()
      reads this, sessions
    {
      sessions == old(sessions) && forall s :: s in old(sessions) ==> s.outbox == old(s.outbox)
    }

    // ---- respond, respond_without_nick, register, notify_set, send_names ----

    /** `respond`: the receiver is named after the command. */
    method Respond(user: Session, prefix: string, command: string, args: seq<string>)
      modifies user`outbox
      ensures user.outbox == old(user.outbox) + [ReplyLine(prefix, command, user.nick, args)]
    {
      user.Send(ReplyLine(prefix, command, user.nick, args));
    }

    /** `respond_without_nick`. */
    method RespondWithoutNick(user: Session, prefix: string, command: string, args: seq<string>)
      modifies user`outbox
      ensures user.outbox == old(user.outbox) + [RelayLine(prefix, command, args)]
    {
      user.Send(RelayLine(prefix, command, args));
    }

    /** `register`: the nickname now names this session, which is greeted with 001 to 004. */
    method Register(user: Session, nick: string)
      requires Valid() && user in sessions && user.nick == nick
      modifies this`users, user`registered, user`outbox
      ensures Valid()
      ensures users == old(users)[nick := user] && user.registered
      ensures user.outbox == old(user.outbox) + Welcome(nick)
    {
      users := users[nick := user];
      user.registered := true;
      Greet(user);
    }

    /** The 001 to 004 replies of `register`. */
    method Greet(user: Session)
      modifies user`outbox
      ensures user.outbox == old(user.outbox) + Welcome(user.nick)
    {
      Respond(user, host, RplWelcome, [":Welcome to the IRC Chat Server " + user.nick]);
      Respond(user, host, RplYourHost, [":Your host is " + host + ", running version " + version]);
      Respond(user, host, RplCreated, [":This server was created " + createdate]);
      Respond(user, host, RplMyInfo, [host + " " + version]);
    }

    /** `notify_set`: the members of the session's channels, each once. */
    method NotifySet(user: Session) returns (r: set<Session>)
      ensures r == Neighbours(user)
    {
      r := {};
      for i := 0 to |user.channels|
        invariant r == set c, s | c in user.channels[..i] && s in c.users :: s
      {
        assert user.channels[..i + 1] == user.channels[..i] + [user.channels[i]];
        r := r + set s | s in user.channels[i].users;
      }
      assert user.channels[..|user.channels|] == user.channels;
    }

    /** Under the invariant, the neighbours of a session are attached sessions, and a session
        is its own neighbour exactly when it is on some channel. */
    lemma NeighboursAttached(user: Session)
      requires Valid() && user in sessions
      ensures Neighbours(user) <= sessions
      ensures user in Neighbours(user) <==> user.channels != []
    {
      if user.channels != [] {
        var c := user.channels[0];
        assert c in user.channels && user in c.users;
      }
    }

    /** The nicknames of a channel's members, gathered in a loop. */
    method MemberNicks(chan: Chan) returns (names: seq<string>)
      ensures names == Nicks(chan.users)
    {
      names := [];
      for i := 0 to |chan.users|
        invariant names == Nicks(chan.users[..i])
      {
        assert chan.users[..i + 1][..i] == chan.users[..i];
        names := names + [chan.users[i].nick];
      }
      assert chan.users[..|chan.users|] == chan.users;
    }

    /** The two lines `send_names` sends for a channel: the member nicknames, sorted, then
        the end marker. */
    function NamesLines(nick: string, name: string, nicks: seq<string>): seq<string>
    {
      [ReplyLine(host, RplNamReply, nick, ["@ " + name + " :" + JoinSpace(Sort(nicks))]),
       ReplyLine(host, RplEndOfNames, nick, [name + " :End of NAMES list"])]
    }

    /** `send_names`. */
    method SendNames(user: Session, chan: Chan)
      modifies user`outbox
      ensures user.outbox == old(user.outbox) + NamesLines(user.nick, chan.name, old(Nicks(chan.users)))
    {
      var names := MemberNicks(chan);
      var sorted := Sort(names);
      Respond(user, host, RplNamReply, ["@ " + chan.name + " :" + JoinSpace(sorted)]);
      Respond(user, host, RplEndOfNames, [chan.name + " :End of NAMES list"]);
    }

    // ---- the loops that send one line to each of several sessions ----

    /** `respond_without_nick` to each session of a member list, skipping those in `except`. */
    method Relay(members: seq<Session>, except: set<Session>, prefix: string, command: string, args: seq<string>)
      requires Distinct(members)
      requires forall i :: 0 <= i < |members| ==> members[i] in sessions
      modifies sessions`outbox
      ensures forall s :: s in sessions ==>
                s.outbox == old(s.outbox) +
                            (if s in members && s !in except then [RelayLine(prefix, command, args)] else [])
    {
      for i := 0 to |members|
        invariant forall s :: s in sessions ==>
                    s.outbox == old(s.outbox) +
                                (if s in members[..i] && s !in except then [RelayLine(prefix, command, args)] else [])
      {
        var u := members[i];
        assert u !in members[..i];
        assert members[..i + 1] == members[..i] + [u];
        if u !in except {
          RespondWithoutNick(u, prefix, command, args);
        }
      }
      assert members[..|members|] == members;
    }

    /** `respond_without_nick` to each session of a set, in no particular order. */
    method RelayEach(targets: set<Session>, prefix: string, command: string, args: seq<string>)
      requires targets <= sessions
      modifies sessions`outbox
      ensures forall s :: s in sessions ==>
                s.outbox == old(s.outbox) + (if s in targets then [RelayLine(prefix, command, args)] else [])
    {
      var rest := targets;
      while rest != {}
        invariant rest <= targets
        invariant forall s :: s in sessions ==>
                    s.outbox == old(s.outbox) + (if s in targets - rest then [RelayLine(prefix, command, args)] else [])
        decreases rest
      {
        var u :| u in rest;
        RespondWithoutNick(u, prefix, command, args);
        rest := rest - {u};
      }
    }

    /** `respond` to each session of a set, in no particular order: each is named in its own line. */
    method RespondEach(targets: set<Session>, prefix: string, command: string, args: seq<string>)
      requires targets <= sessions
      modifies sessions`outbox
      ensures forall s :: s in sessions ==>
                s.outbox == old(s.outbox) + (if s in targets then [ReplyLine(prefix, command, s.nick, args)] else [])
    {
      var rest := targets;
      while rest != {}
        invariant rest <= targets
        invariant forall s :: s in sessions ==>
                    s.outbox == old(s.outbox) + (if s in targets - rest then [ReplyLine(prefix, command, s.nick, args)] else [])
        decreases rest
      {
        var u :| u in rest;
        Respond(u, prefix, command, args);
        rest := rest - {u};
      }
    }
  
    // ---- PASS, NICK, USER ----

    twostate predicate PassDone(user: Session, args: seq<string>)
      reads this, user, sessions, channels.Values
    {
      StateKept(user) &&
      if old(user.registered) then
        SentTo(user, [ReplyLine(host, ErrAlreadyRegistered, user.nick, [":You may not reregister"])])
      else if args == [] then
        SentTo(user, [ReplyLine(host, ErrNeedMoreParams, user.nick, ["PASS :Not enough parameters"])])
      else
        Silent()
    }

    /** `cmd_pass`: the password is accepted and ignored; only a registered session or a
        missing argument draws a reply. */
    method CmdPass(user: Session, args: seq<string>)
      requires Valid() && user in sessions
      modifies user`outbox
      ensures Valid() && PassDone(user, args)
    {
      if user.registered {
        Respond(user, host, ErrAlreadyRegistered, [":You may not reregister"]);
      } else if args == [] {
        Respond(user, host, ErrNeedMoreParams, ["PASS :Not enough parameters"]);
      }
    }

    /** A nickname given before registration: taken only when the session registers. */
    twostate predicate PendingNickDone(user: Session, nick: string)
      reads this, user, sessions, channels.Values
    {
      ChannelsKept() && user.nick == nick && user.realname == old(user.realname) &&
      user.channels == old(user.channels) &&
      if old(user.realname).Some? && old(user.realname).value != "" then
        users == old(users)[nick := user] && user.registered && SentTo(user, Welcome(nick))
      else
        users == old(users) && !user.registered && Silent()
    }

    /** A registered session changes nickname: the old one is freed, the new one taken, and every
        neighbour is told once, in a line that names that neighbour. */
    twostate predicate RenameDone(user: Session, nick: string)
      reads this, user, sessions, channels.Values
    {
      users == (old(users) - {old(user.nick)})[nick := user] && ChannelsKept() &&
      user.nick == nick && user.registered && user.realname == old(user.realname) &&
      user.channels == old(user.channels) && sessions == old(sessions) &&
      forall s :: s in old(sessions) ==>
        s.outbox == old(s.outbox) +
                    (if s in old(Neighbours(user)) then [ReplyLine(old(user.nick), "NICK", s.nick, [])] else [])
    }

    twostate predicate NickDone(user: Session, args: seq<string>)
      reads this, user, sessions, channels.Values
    {
      if args == [] then
        StateKept(user) && SentTo(user, [ReplyLine(host, ErrNoNicknameGiven, user.nick, [":No nickname given"])])
      else
        var nick := Take(args[0], MaxNickLen);
        if !ValidNick(nick) then
          StateKept(user) &&
          SentTo(user, [ReplyLine(host, ErrErroneusNickname, user.nick, [nick, ":Erroneous nickname"])])
        else if nick in old(users) then
          StateKept(user) &&
          SentTo(user, [ReplyLine(host, ErrNicknameInUse, user.nick, [nick, ":Nickname is already in use"])])
        else if !old(user.registered) then
          PendingNickDone(user, nick)
        else if old(user.nick) !in old(users) then
          // the old nickname was taken over by another session: the lookup fails, nothing happens
          StateKept(user) && Silent()
        else
          RenameDone(user, nick)
    }

    method SetPendingNick(user: Session, nick: string)
      requires Valid() && user in sessions && !user.registered
      modifies this`users, user`nick, user`registered, sessions`outbox
      ensures Valid() && PendingNickDone(user, nick)
    {
      assert forall k :: k in users ==> users[k] != user;
      user.nick := nick;
      if user.realname.Some? && user.realname.value != "" {
        Register(user, nick);
      }
    }

    /** The nickname table follows a registered session's change of nickname. */
    method Rekey(user: Session, nick: string)
      requires Valid() && user in sessions && user.registered && user.nick in users && nick !in users
      modifies this`users, user`nick
      ensures Valid()
      ensures users == (old(users) - {old(user.nick)})[nick := user] && user.nick == nick
    {
      var oldNick := user.nick;
      assert forall k :: k in users && k != oldNick ==> users[k] != user;
      users := users - {oldNick};
      user.nick := nick;
      users := users[nick := user];
    }

    method Rename(user: Session, nick: string)
      requires Valid() && user in sessions && user.registered && user.nick in users && nick !in users
      modifies this`users, user`nick, sessions`outbox
      ensures Valid() && RenameDone(user, nick)
    {
      var oldNick := user.nick;
      Rekey(user, nick);
      var targets := NotifySet(user);
      NeighboursAttached(user);
      RespondEach(targets, oldNick, "NICK", []);
    }

    /** `cmd_nick`. */
    method CmdNick(user: Session, args: seq<string>)
      requires Valid() && user in sessions
      modifies this`users, user`nick, user`registered, sessions`outbox
      ensures Valid() && NickDone(user, args)
    {
      if args == [] {
        Respond(user, host, ErrNoNicknameGiven, [":No nickname given"]);
      } else {
        var nick := Take(args[0], MaxNickLen);
        if !ValidNick(nick) {
          Respond(user, host, ErrErroneusNickname, [nick, ":Erroneous nickname"]);
        } else if nick in users {
          Respond(user, host, ErrNicknameInUse, [nick, ":Nickname is already in use"]);
        } else if !user.registered {
          SetPendingNick(user, nick);
        } else if user.nick in users {
          Rename(user, nick);
        }
      }
    }

    twostate predicate UserDone(user: Session, args: seq<string>)
      reads this, user, sessions, channels.Values
    {
      if old(user.registered) then
        StateKept(user) && SentTo(user, [ReplyLine(host, ErrAlreadyRegistered, user.nick, [":You may not reregister"])])
      else if |args| < 4 then
        StateKept(user) && SentTo(user, [ReplyLine(host, ErrNeedMoreParams, user.nick, ["USER :Not enough parameters"])])
      else
        ChannelsKept() && user.realname == Some(args[3]) && user.nick == old(user.nick) &&
        user.channels == old(user.channels) &&
        if old(user.nick) != UnsetNick then
          users == old(users)[user.nick := user] && user.registered && SentTo(user, Welcome(user.nick))
        else
          users == old(users) && !user.registered && Silent()
    }

    /** `cmd_user`: the fourth argument is the real name. */
    method CmdUser(user: Session, args: seq<string>)
      requires Valid() && user in sessions
      modifies this`users, user`realname, user`registered, sessions`outbox
      ensures Valid() && UserDone(user, args)
    {
      if user.registered {
        Respond(user, host, ErrAlreadyRegistered, [":You may not reregister"]);
      } else if |args| < 4 {
        Respond(user, host, ErrNeedMoreParams, ["USER :Not enough parameters"]);
      } else {
        user.realname := Some(args[3]);
        if user.nick != UnsetNick {
          Register(user, user.nick);
        }
      }
    }
  
    // ---- JOIN ----

    /** `JOIN 0`: every neighbour is told `PART 0` once, then the session leaves all its channels. */
    twostate predicate PartAllDone(user: Session)
      reads this, user, sessions, channels.Values
    {
      users == old(users) && channels == old(channels) && user.channels == [] &&
      user.nick == old(user.nick) && user.registered == old(user.registered) &&
      user.realname == old(user.realname) &&
      (forall c :: c in channels.Values ==>
         c.users == if c in old(user.channels) then RemoveFirst(old(c.users), user) else old(c.users)) &&
      sessions == old(sessions) &&
      forall s :: s in old(sessions) ==>
        s.outbox == old(s.outbox) + (if s in old(Neighbours(user)) then [RelayLine(user.nick, "PART", ["0"])] else [])
    }

    /** Joining a channel the session is not on: the channel is created when it is new, the
        session is added at the end of its member list and the channel at the end of the session's
        list, every member (the joiner included) is told, and the joiner gets the names list. */
    twostate predicate JoinedDone(user: Session, name: string)
      reads this, user, sessions, channels.Values
    {
      JoinLinked(user, name) &&
      (forall s :: s in channels[name].users ==> s in sessions) &&
      sessions == old(sessions) &&
      forall s :: s in old(sessions) ==>
        s.outbox == old(s.outbox) +
                    (if s in channels[name].users then [RelayLine(user.nick, "JOIN", [name])] else []) +
                    (if s == user then NamesLines(user.nick, name, Nicks(channels[name].users)) else [])
    }

    /** The membership side of a join. */
    twostate predicate JoinLinked(user: Session, name: string)
      reads this, user`channels, user`nick, user`registered, user`realname, channels.Values`users
    {
      name in channels && users == old(users) &&
      (if name in old(channels) then
         channels == old(channels) && channels[name].users == old(channels[name].users) + [user]
       else
         fresh(channels[name]) && channels == old(channels)[name := channels[name]] &&
         channels[name].users == [user]) &&
      (forall d :: d in channels.Values && d in old(channels).Values && d != channels[name] ==>
         d.users == old(d.users)) &&
      user.channels == old(user.channels) + [channels[name]] &&
      user.nick == old(user.nick) && user.registered == old(user.registered) &&
      user.realname == old(user.realname)
    }

    twostate predicate JoinDone(user: Session, args: seq<string>)
      reads this, user, sessions, channels.Values
    {
      if args == [] then
        StateKept(user) && SentTo(user, [ReplyLine(host, ErrNeedMoreParams, user.nick, ["JOIN :Not enough parameters"])])
      else if args[0] == "0" then
        PartAllDone(user)
      else if !ValidChan(args[0]) then
        StateKept(user) && SentTo(user, [ReplyLine(host, ErrNoSuchChannel, user.nick, [args[0], ":No such channel"])])
      else if args[0] in old(channels) && old(channels[args[0]]) in old(user.channels) then
        StateKept(user) && Silent()
      else
        JoinedDone(user, args[0])
    }

    /** The session leaves every channel it is on, first to last; the channels stay. */
    method LeaveAll(user: Session)
      requires Valid() && user in sessions
      modifies user`channels, channels.Values`users
      ensures Valid() && user.channels == []
      ensures forall c :: c in channels.Values ==>
                c.users == if c in old(user.channels) then RemoveFirst(old(c.users), user) else old(c.users)
    {
      ghost var joined := user.channels;
      for i := 0 to |user.channels|
        invariant Valid() && user.channels == joined[i..]
        invariant forall c :: c in channels.Values ==>
                    c.users == if c in joined[..i] then RemoveFirst(old(c.users), user) else old(c.users)
      {
        var c := user.channels[0];
        DistinctStep(joined, i);
        Unlink(user, c);
      }
      assert joined[..|joined|] == joined;
    }

    /** `JOIN 0`. */
    method PartAll(user: Session)
      requires Valid() && user in sessions
      modifies user`channels, channels.Values`users, sessions`outbox
      ensures Valid() && PartAllDone(user)
    {
      AnnouncePartAll(user);
      LeaveAll(user);
    }

    /** Each neighbour of the session is told `PART 0` once. */
    method AnnouncePartAll(user: Session)
      requires Valid() && user in sessions
      modifies sessions`outbox
      ensures Valid()
      ensures forall s :: s in sessions ==>
                s.outbox == old(s.outbox) + (if s in Neighbours(user) then [RelayLine(user.nick, "PART", ["0"])] else [])
    {
      var targets := NotifySet(user);
      NeighboursAttached(user);
      RelayEach(targets, user.nick, "PART", ["0"]);
    }

    /** The channel filed under `name`, created empty when there is none. */
    method ChannelNamed(name: string) returns (c: Chan)
      requires Valid()
      modifies this`channels
      ensures Valid() && name in channels && c == channels[name]
      ensures name in old(channels) ==> channels == old(channels)
      ensures name !in old(channels) ==> fresh(c) && c.users == [] && channels == old(channels)[name := c]
    {
      if name !in channels {
        var created := new Channel(name);
        channels := channels[name := created];
        forall d | d in old(channels).Values
          ensures d in channels.Values
        {
          var k :| k in old(channels) && old(channels)[k] == d;
          assert channels[k] == d;
        }
      }
      c := channels[name];
    }

    /** Both membership lists gain their new entry at the end. */
    method AddMember(user: Session, c: Chan)
      requires Valid() && user in sessions && c in channels.Values && c !in user.channels
      modifies user`channels, c`users
      ensures Valid()
      ensures user.channels == old(user.channels) + [c] && c.users == old(c.users) + [user]
    {
      assert user !in c.users;
      AppendDistinct(user.channels, c);
      AppendDistinct(c.users, user);
      user.channels := user.channels + [c];
      c.users := c.users + [user];
      forall s, d | s in sessions && d in s.channels
        ensures d in channels.Values && s in d.users
      {
        if s != user || d != c {
          assert d in old(s.channels) && s in old(d.users);
        }
      }
      forall d, s | d in channels.Values && s in d.users
        ensures s in sessions && d in s.channels
      {
        if s != user || d != c {
          assert s in old(d.users) && d in old(s.channels);
        }
      }
      forall s | s in sessions && s != user
        ensures Distinct(s.channels)
      {
        assert s.channels == old(s.channels);
      }
      forall d | d in channels.Values && d != c
        ensures Distinct(d.users)
      {
        assert d.users == old(d.users);
      }
    }

    /** Joining a channel the session is not on. */
    method Joined(user: Session, name: string)
      requires Valid() && user in sessions
      requires name in channels ==> channels[name] !in user.channels
      modifies this`channels, user`channels, channels.Values`users, sessions`outbox
      ensures Valid() && JoinedDone(user, name)
    {
      var chan := Link(user, name);
      AnnounceJoin(user, chan);
    }

    /** The channel, created when new, and the session gain each other. */
    method Link(user: Session, name: string) returns (chan: Chan)
      requires Valid() && user in sessions
      requires name in channels ==> channels[name] !in user.channels
      modifies this`channels, user`channels, channels.Values`users
      ensures Valid() && JoinLinked(user, name) && chan == channels[name] && chan.name == name
      ensures Distinct(chan.users) && forall i :: 0 <= i < |chan.users| ==> chan.users[i] in sessions
    {
      chan := ChannelNamed(name);
      AddMember(user, chan);
    }

    /** Every member, the joiner included, is told of the join; then the joiner gets the names list. */
    method AnnounceJoin(user: Session, chan: Chan)
      requires Valid() && user in sessions && Distinct(chan.users)
      requires forall i :: 0 <= i < |chan.users| ==> chan.users[i] in sessions
      modifies sessions`outbox
      ensures Valid()
      ensures forall s :: s in sessions ==>
                s.outbox == old(s.outbox) +
                            (if s in chan.users then [RelayLine(user.nick, "JOIN", [chan.name])] else []) +
                            (if s == user then NamesLines(user.nick, chan.name, Nicks(chan.users)) else [])
    {
      Relay(chan.users, {}, user.nick, "JOIN", [chan.name]);
      SendNames(user, chan);
    }

    /** `cmd_join`. */
    method CmdJoin(user: Session, args: seq<string>)
      requires Valid() && user in sessions
      modifies this`channels, user`channels, channels.Values`users, sessions`outbox
      ensures Valid() && JoinDone(user, args)
    {
      if args == [] {
        Respond(user, host, ErrNeedMoreParams, ["JOIN :Not enough parameters"]);
      } else {
        var name := args[0];
        if name == "0" {
          PartAll(user);
        } else if !ValidChan(name) {
          Respond(user, host, ErrNoSuchChannel, [name, ":No such channel"]);
        } else if name in channels && channels[name] in user.channels {
          // already on the channel: ignored
        } else {
          Joined(user, name);
        }
      }
    }

    // ---- PART ----

    /** Leaving one channel: every member (the leaver included) is told, then both links go. */
    twostate predicate LeftDone(user: Session, name: string)
      reads this, user, sessions, channels.Values
    {
      name in channels && users == old(users) && channels == old(channels) &&
      user.nick == old(user.nick) && user.registered == old(user.registered) &&
      user.realname == old(user.realname) &&
      user.channels == RemoveFirst(old(user.channels), channels[name]) &&
      channels[name].users == RemoveFirst(old(channels[name].users), user) &&
      (forall d :: d in channels.Values && d != channels[name] ==> d.users == old(d.users)) &&
      sessions == old(sessions) &&
      forall s :: s in old(sessions) ==>
        s.outbox == old(s.outbox) +
                    (if s in old(channels[name].users) then [RelayLine(user.nick, "PART", [name])] else [])
    }

    twostate predicate PartDone(user: Session, args: seq<string>)
      reads this, user, sessions, channels.Values
    {
      if args == [] then
        StateKept(user) && SentTo(user, [ReplyLine(host, ErrNeedMoreParams, user.nick, ["PART :Not enough parameters"])])
      else if args[0] !in old(channels) then
        StateKept(user) && SentTo(user, [ReplyLine(host, ErrNoSuchChannel, user.nick, [args[0] + " :No such channel"])])
      else if old(channels[args[0]]) !in old(user.channels) then
        StateKept(user) &&
        SentTo(user, [ReplyLine(host, ErrNotOnChannel, user.nick, [args[0], ":You're not on that channel"])])
      else
        LeftDone(user, args[0])
    }

    /** Both membership lists lose their entry. */
    method Unlink(user: Session, chan: Chan)
      requires Valid() && user in sessions && chan in channels.Values && chan in user.channels
      modifies user`channels, chan`users
      ensures Valid()
      ensures user.channels == RemoveFirst(old(user.channels), chan)
      ensures chan.users == RemoveFirst(old(chan.users), user)
    {
      RemoveFirstDistinct(user.channels, chan);
      RemoveFirstDistinct(chan.users, user);
      user.channels := RemoveFirst(user.channels, chan);
      chan.users := RemoveFirst(chan.users, user);
      forall s, d | s in sessions && d in s.channels
        ensures d in channels.Values && s in d.users
      {
        if s == user {
          assert d in old(user.channels) && d != chan;
        } else {
          assert d in old(s.channels);
        }
      }
      forall d, s | d in channels.Values && s in d.users
        ensures s in sessions && d in s.channels
      {
        if d == chan {
          assert s in old(chan.users) && s != user;
        } else {
          assert s in old(d.users);
        }
      }
      forall s | s in sessions && s != user
        ensures Distinct(s.channels)
      {
        assert s.channels == old(s.channels);
      }
      forall d | d in channels.Values && d != chan
        ensures Distinct(d.users)
      {
        assert d.users == old(d.users);
      }
    }

    /** Leaving one channel. The relay reads neither membership list of the leaver, so it is sent
        before both entries are removed. */
    method Leave(user: Session, name: string, chan: Chan)
      requires Valid() && user in sessions && name in channels && chan == channels[name] && chan in user.channels
      modifies user`channels, chan`users, sessions`outbox
      ensures Valid() && LeftDone(user, name)
    {
      Relay(chan.users, {}, user.nick, "PART", [name]);
      Unlink(user, chan);
    }

    /** `cmd_part`. */
    method CmdPart(user: Session, args: seq<string>)
      requires Valid() && user in sessions
      modifies user`channels, channels.Values`users, sessions`outbox
      ensures Valid() && PartDone(user, args)
    {
      if args == [] {
        Respond(user, host, ErrNeedMoreParams, ["PART :Not enough parameters"]);
      } else {
        var name := args[0];
        if name !in channels {
          Respond(user, host, ErrNoSuchChannel, [name + " :No such channel"]);
        } else if channels[name] in user.channels {
          Leave(user, name, channels[name]);
        } else {
          Respond(user, host, ErrNotOnChannel, [name, ":You're not on that channel"]);
        }
      }
    }

    // ---- PRIVMSG ----

    /** A message to a nickname reaches that session alone; a message to a channel reaches every
        member but the sender, whether or not the sender is a member. */
    twostate predicate PrivmsgDone(user: Session, args: seq<string>)
      reads this, user, sessions, channels.Values
    {
      StateKept(user) &&
      if args == [] then
        SentTo(user, [ReplyLine(host, ErrNoRecipient, user.nick, [":No recipient given (PRIVMSG)"])])
      else if |args| == 1 then
        SentTo(user, [ReplyLine(host, ErrNoTextToSend, user.nick, [":No text to send"])])
      else if args[0] !in users && args[0] !in channels then
        SentTo(user, [ReplyLine(host, ErrNoSuchNick, user.nick, [args[0], ":No such nick/channel"])])
      else if args[0] in users then
        SentTo(users[args[0]], [ReplyLine(user.nick, "PRIVMSG", args[0], [":" + args[1]])])
      else
        sessions == old(sessions) &&
        forall s :: s in old(sessions) ==>
          s.outbox == old(s.outbox) +
                      (if s in channels[args[0]].users && s != user
                       then [RelayLine(user.nick, "PRIVMSG", [args[0], ":" + args[1]])] else [])
    }

    /** `cmd_privmsg`. */
    method CmdPrivmsg(user: Session, args: seq<string>)
      requires Valid() && user in sessions
      modifies sessions`outbox
      ensures Valid() && PrivmsgDone(user, args)
    {
      if args == [] {
        Respond(user, host, ErrNoRecipient, [":No recipient given (PRIVMSG)"]);
      } else if |args| == 1 {
        Respond(user, host, ErrNoTextToSend, [":No text to send"]);
      } else {
        var target := args[0];
        var message := args[1];
        if target !in users && target !in channels {
          Respond(user, host, ErrNoSuchNick, [target, ":No such nick/channel"]);
        } else if target in users {
          Respond(users[target], user.nick, "PRIVMSG", [":" + message]);
        } else {
          Relay(channels[target].users, {user}, user.nick, "PRIVMSG", [target, ":" + message]);
        }
      }
    }

    // ---- command, msg_received ----

    /** What the handler of a lower-cased command name does; the handlers of QUIT, LIST, KICK,
        NOTICE and TOPIC are empty, and a name without a handler changes nothing either. */
    twostate predicate Dispatched(user: Session, name: string, args: seq<string>)
      reads this, user, sessions, channels.Values
    {
      if name == "pass" then PassDone(user, args)
      else if name == "nick" then NickDone(user, args)
      else if name == "user" then UserDone(user, args)
      else if name == "join" then JoinDone(user, args)
      else if name == "part" then PartDone(user, args)
      else if name == "privmsg" then PrivmsgDone(user, args)
      else StateKept(user) && Silent()
    }

    /** `command`: an unregistered session is refused the commands that need registration (the
        check compares the name as given); otherwise the handler is looked up under the lower-cased
        name. `unsupported` stands for the console report of a name without a handler. */
    method Command(user: Session, prefix: string, command: string, args: seq<string>) returns (unsupported: bool)
      requires Valid() && user in sessions
      modifies this`users, this`channels, user`nick, user`registered, user`realname, user`channels
      modifies channels.Values`users, sessions`outbox
      ensures Valid()
      ensures !old(user.registered) && command in RegRequired ==>
                !unsupported && StateKept(user) &&
                SentTo(user, [ReplyLine(host, ErrNotRegistered, user.nick, [":You have not registered"])])
      ensures old(user.registered) || command !in RegRequired ==>
                unsupported == (Lower(command) !in Handlers) && Dispatched(user, Lower(command), args)
    {
      unsupported := false;
      if !user.registered && command in RegRequired {
        Respond(user, host, ErrNotRegistered, [":You have not registered"]);
      } else {
        var name := Lower(command);
        if name == "pass" {
          CmdPass(user, args);
        } else if name == "nick" {
          CmdNick(user, args);
        } else if name == "user" {
          CmdUser(user, args);
        } else if name == "join" {
          CmdJoin(user, args);
        } else if name == "part" {
          CmdPart(user, args);
        } else if name == "privmsg" {
          CmdPrivmsg(user, args);
        } else {
          unsupported := name !in Handlers;
        }
      }
    }

    /** The case where `cmd_nick` raises `KeyError` at `del self.users[old]`: a registered session
        asks for a free, valid nickname while its own is no longer a key of the table. */
    predicate NickRaises(user: Session, args: seq<string>)
      reads this, user
    {
      args != [] && ValidNick(Take(args[0], MaxNickLen)) && Take(args[0], MaxNickLen) !in users &&
      user.registered && user.nick !in users
    }

    /** `msg_received`: the line is parsed and handed to `command`. `raised` stands for an
        exception escaping to the transport: the one `parse_msg` raises on a line it cannot
        split, or the `KeyError` of `cmd_nick`; nothing changes then. */
    method MsgReceived(user: Session, line: string) returns (raised: bool, unsupported: bool)
      requires Valid() && user in sessions
      modifies this`users, this`channels, user`nick, user`registered, user`realname, user`channels
      modifies channels.Values`users, sessions`outbox
      ensures Valid()
      ensures raised <==> !Parsable(line) ||
                          (ParseMsg(line).command == "nick" && old(NickRaises(user, ParseMsg(line).args)))
      ensures raised ==> !unsupported && StateKept(user) && Silent()
      ensures Parsable(line) ==>
                var m := ParseMsg(line);
                if !old(user.registered) && m.command in RegRequired then
                  !unsupported && StateKept(user) &&
                  SentTo(user, [ReplyLine(host, ErrNotRegistered, user.nick, [":You have not registered"])])
                else
                  unsupported == (m.command !in Handlers) && Dispatched(user, m.command, m.args)
    {
      if !Parsable(line) {
        return true, false;
      }
      var m := ParseMsg(line);
      LowerFixedPoint(m.command);
      raised := m.command == "nick" && NickRaises(user, m.args);
      unsupported := Command(user, m.prefix, m.command, m.args);
    }
  }
}
