/** The plan records of types.ts: a plan holds ordered phases, a phase holds ordered steps. */
module Plans {
  import opened Wrappers

  /** The enumerations of types.ts. A decoded step carries the enumeration's string value, and
      nothing checks it, so steps hold strings and these give the values that are valid. */
  datatype Difficulty = Easy | Medium | Hard {
    function Name(): string {
      match this
      case Easy => "Easy"
      case Medium => "Medium"
      case Hard => "Hard"
    }
  }

  datatype TaskType = Research | Action | Milestone | Preparation {
    function Name(): string {
      match this
      case Research => "Research"
      case Action => "Action"
      case Milestone => "Milestone"
      case Preparation => "Preparation"
    }
  }

  /** One step. `taskType` is the record's `type` field (a reserved word in Dafny). */
  datatype PlanStep = PlanStep(
    id: string,
    title: string,
    description: string,
    estimatedDuration: string,
    difficulty: string,
    taskType: string,
    isBreakable: bool)

  datatype PlanPhase = PlanPhase(
    id: string,
    title: string,
    description: string,
    duration: string,
    isRecurring: bool,
    frequency: Option<string>,
    steps: seq<PlanStep>)

  /** PlanResponse. `createdAt` is the millisecond timestamp taken when generation started. */
  datatype Plan = Plan(
    id: string,
    parentId: Option<string>,
    goal: string,
    summary: string,
    motivationalQuote: string,
    phases: seq<PlanPhase>,
    createdAt: int)

  /** JavaScript truthiness of an optional string field: present and not the empty string. */
  predicate Truthy(s: Option<string>) {
    s.Some? && s.value != ""
  }
}
