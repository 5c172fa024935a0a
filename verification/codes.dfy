/** Numeric replies, with the three-digit values of section 5 of RFC 2812
    (section 5.1 for the command responses, section 5.2 for the error replies). */
module Codes {

  const RplWelcome := "001"          // RPL_WELCOME
  const RplYourHost := "002"         // RPL_YOURHOST
  const RplCreated := "003"          // RPL_CREATED
  const RplMyInfo := "004"           // RPL_MYINFO
  const RplNamReply := "353"         // RPL_NAMREPLY
  const RplEndOfNames := "366"       // RPL_ENDOFNAMES

  const ErrNoSuchNick := "401"       // ERR_NOSUCHNICK
  const ErrNoSuchChannel := "403"    // ERR_NOSUCHCHANNEL
  const ErrNoRecipient := "411"      // ERR_NORECIPIENT
  const ErrNoTextToSend := "412"     // ERR_NOTEXTTOSEND
  const ErrNoNicknameGiven := "431"  // ERR_NONICKNAMEGIVEN
  const ErrErroneusNickname := "432" // ERR_ERRONEUSNICKNAME
  const ErrNicknameInUse := "433"    // ERR_NICKNAMEINUSE
  const ErrNotOnChannel := "442"     // ERR_NOTONCHANNEL
  const ErrNotRegistered := "451"    // ERR_NOTREGISTERED
  const ErrNeedMoreParams := "461"   // ERR_NEEDMOREPARAMS
  const ErrAlreadyRegistered := "462" // ERR_ALREADYREGISTRED
}
