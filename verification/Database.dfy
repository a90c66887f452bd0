/** The pipeline tables the spine's helpers are handed, and the domain writes made through them. */
module Database {
  import opened Spine

  /** One (instance, stage) pair. */
  datatype UnitId = UnitId(instance: string, stage: string)

  type Tables = map<UnitId, Unit>

  /** One execution of a caller's applyResult / inTransaction hook that committed. */
  datatype Application = Application(id: UnitId, target: Target, payload: Payload)

  /** `strayLetters` holds the triage rows written for an (instance, stage) whose instance row does not exist. */
  class Db {
    var units: Tables
    var domain: seq<Application>
    var strayLetters: map<UnitId, Letters>

    constructor ()
      ensures units == map[] && domain == [] && strayLetters == map[]
    {
      units, domain, strayLetters := map[], [], map[];
    }
  }
}
