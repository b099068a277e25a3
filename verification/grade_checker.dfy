/** One run of the checker: the configuration gate, the diff of the fetched
    snapshot against the stored one, and the push decision (the main block
    and GradeChecker.get_new_course of main.py, without their I/O). */
module GradeChecker {
  import opened Wrappers
  import opened JsonParser
  import opened Environment

  /** How a run ends: exit status 1 before any network activity when the
      gate refuses, or completion with the text (possibly empty), the
      snapshot written back to the store, and the push decision. */
  datatype RunOutcome =
    | ConfigExit(code: int)
    | Completed(result: string, stored: Snapshot, push: PushAction)

  /** One run, given the environment, the channel number PUSH_CHANNEL parses
      to, the freshly fetched snapshot and the stored one. */
  function Run(env: Env, channel: int, current: Snapshot, previous: Snapshot): (o: RunOutcome)
    requires CheckEnvSet(env).Ready? && GetRecordCount(current) != GetRecordCount(previous) ==>
               NewRecordsHaveColumns(current, previous)
    ensures o.ConfigExit? <==> !CheckEnvSet(env).Ready?
    ensures o.ConfigExit? ==> o.code == 1
    ensures o.Completed? ==> o.stored == current
    ensures o.Completed? ==>
              o.result == GetNewCoursesBasedOn(current, previous, env.showDataInTitle) &&
              o.push == PushData(o.result, channel, env.token)
    ensures o.Completed? && GetRecordCount(current) == GetRecordCount(previous) ==>
              o.result == "" && o.push == NothingToPush
    ensures o.Completed? && o.push.Send? <==>
              CheckEnvSet(env).Ready? &&
              GetRecordCount(current) != GetRecordCount(previous) &&
              -|PUSH_DATA_URLS| <= channel < |PUSH_DATA_URLS|
  {
    if !CheckEnvSet(env).Ready? then ConfigExit(1)
    else
      var result := GetNewCoursesBasedOn(current, previous, env.showDataInTitle);
      Completed(result, current, PushData(result, channel, env.token))
  }
}
