/** The stored entities of one event: races, teams and participants, and what
    a request can say of a participant. */
module Registration {
  import opened Wrappers

  // ---- enumerations; every one has room for the values Go's string types allow

  datatype Gender = Male | Female | NoGender

  datatype Category = MaleTeam | FemaleTeam | MixedTeam | BlankCategory | UnknownCategory {
    predicate Valid() {
      this == MaleTeam || this == FemaleTeam || this == MixedTeam
    }
  }

  datatype Status = Registered | Finisher | DidNotFinish | DidNotStart | BlankStatus | UnknownStatus {
    predicate Valid() {
      this != BlankStatus && this != UnknownStatus
    }
  }

  datatype EntryType = Individual | ByTeam | BlankEntry | UnknownEntry

  datatype CourseType = Standard | Relay | Loop | BlankCourse | UnknownCourse

  datatype LoopMode = TargetLaps | TimeLimit | UnknownMode

  // ---- races

  datatype RaceFormat = RaceFormat(
    entry: EntryType,
    course: CourseType,
    teamSize: Option<int>,
    loopMode: Option<LoopMode>,
    loopLengthKM: Option<real>,
    loopTargetLaps: Option<int>,
    loopTimeLimitMS: Option<int>)
  {
    predicate IsTeam() {
      entry == ByTeam
    }

    predicate IsRelay() {
      course == Relay
    }

    /** The team size, 0 when the race states none. */
    function Size(): int {
      if teamSize.Some? then teamSize.value else 0
    }
  }

  // ---- participants

  /** The fields no team rule looks at. */
  datatype Details = Details(
    firstName: string,
    lastName: Option<string>,
    bibName: Option<string>,
    email: Option<string>,
    club: Option<string>,
    emergencyName: Option<string>,
    emergencyPhone: Option<string>,
    bloodType: Option<string>,
    status: Status)

  /** What can be said of a person from outside, before it is decided what is stored. */
  datatype Input = Input(
    details: Details,
    bib: int,
    gender: Gender,
    refID: Option<string>,
    teamID: Option<string>,
    legOrder: Option<int>)

  datatype Participant = Participant(
    raceID: string,
    teamID: Option<string>,
    legOrder: Option<int>,
    bib: int,
    gender: Gender,
    refID: Option<string>,
    details: Details)

  datatype Team = Team(raceID: string, name: string, category: Category)

  /** The field a request error or an import issue points at. */
  datatype Field =
    | FirstNameField | BibField | GenderField | StatusField | EmailField | TeamIDField | LegField
    | RaceField | TeamNameField | TeamCategoryField | RefField | BloodTypeField
    | NameField | CategoryField | FormatField
}
