/** The configuration gate and the choice of push channel (check_env_set and
    push_data in main.py). */
module Environment {
  import opened Wrappers

  /** The process environment variables the program reads; each may be unset. */
  datatype Env = Env(
    stdId: Option<string>,            // STD_ID
    password: Option<string>,         // PASSWORD
    token: Option<string>,            // TOKEN
    pushChannel: Option<string>,      // PUSH_CHANNEL
    showDataInTitle: Option<string>)  // SHOW_DATA_IN_TITLE

  /** What the gate reports, in the order it tests: the three refusals, or
      readiness together with whether the title setting fell back to its
      default because it was unset. */
  datatype EnvCheck = MissingLogin | MissingToken | MissingPushChannel | Ready(titleDefaulted: bool)

  /** The configuration gate. */
  function CheckEnvSet(env: Env): (c: EnvCheck)
    ensures c.Ready? <==>
              env.stdId.Some? && env.password.Some? && env.token.Some? && env.pushChannel.Some?
    ensures c == MissingLogin <==> env.stdId.None? || env.password.None?
    ensures c == MissingToken <==> env.stdId.Some? && env.password.Some? && env.token.None?
    ensures c.Ready? ==> (c.titleDefaulted <==> env.showDataInTitle.None?)
  {
    if env.stdId.None? || env.password.None? then MissingLogin
    else if env.token.None? then MissingToken
    else if env.pushChannel.None? then MissingPushChannel
    else Ready(env.showDataInTitle.None?)
  }

  /** The notification relays, indexed by channel; each template takes the
      token and the URL-encoded text. */
  const PUSH_DATA_URLS: seq<string> := [
    "https://api2.pushdeer.com/message/push?pushkey={TOKEN}&text={RESULT}",
    "http://www.pushplus.plus/send?token={TOKEN}&content={RESULT}&template=txt"
  ]

  /** What push_data does with a result: nothing for an empty result, a
      refusal for a channel at or past the end of the relay list, an
      IndexError for a negative channel below minus the list's length, and
      otherwise a request to the selected relay (Python counts a negative
      index from the end of the list). */
  datatype PushAction =
    | NothingToPush
    | UnknownChannel
    | ChannelIndexError
    | Send(template: string, token: Option<string>, text: string)

  /** The push decision for `result` on the channel number `channel`. */
  function PushData(result: string, channel: int, token: Option<string>): (a: PushAction)
    ensures result == "" <==> a == NothingToPush
    ensures result != "" && channel >= |PUSH_DATA_URLS| <==> a == UnknownChannel
    ensures a.Send? ==> a.text == result && a.token == token && a.template in PUSH_DATA_URLS
    ensures result != "" && 0 <= channel < |PUSH_DATA_URLS| ==> a == Send(PUSH_DATA_URLS[channel], token, result)
    ensures result != "" && -|PUSH_DATA_URLS| <= channel < 0 ==>
              a == Send(PUSH_DATA_URLS[|PUSH_DATA_URLS| + channel], token, result)
    ensures a == ChannelIndexError <==> result != "" && channel < -|PUSH_DATA_URLS|
    ensures a.Send? <==> result != "" && -|PUSH_DATA_URLS| <= channel < |PUSH_DATA_URLS|
  {
    if result == "" then NothingToPush
    else if channel >= |PUSH_DATA_URLS| then UnknownChannel
    else if channel >= 0 then Send(PUSH_DATA_URLS[channel], token, result)
    else if channel >= -|PUSH_DATA_URLS| then Send(PUSH_DATA_URLS[|PUSH_DATA_URLS| + channel], token, result)
    else ChannelIndexError
  }
}
