/** A chat channel: its name, the list of sessions on it (which the server edits in place)
    and its topic. The class is generic in the member type because a session in turn holds
    the channels it is on. */
module Channels {

  class Channel<U> {
    const name: string
    var users: seq<U>
    var topic: string

    /** A new channel keeps the given name, has no members and an empty topic. */
    constructor(name: string)
      ensures this.name == name
      ensures users == []
      ensures GetTopic() == ""
    {
      this.name := name;
      users := [];
      topic := "";
    }

    /** Setting the topic touches nothing else. */
    method SetTopic(t: string)
      modifies this`topic
      ensures GetTopic() == t
      ensures users == old(users)
    {
      topic := t;
    }

    function GetTopic(): string
      reads this`topic
    {
      topic
    }
  }
}
