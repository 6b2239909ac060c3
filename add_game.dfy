/** The submit rule of the add-game form: validation, list parsing, the
    duplicate-name check, the insert into the `games` collection, and the
    status that the page shows afterwards. */
module AddGame {
  import opened Wrappers
  import opened Text

  const Difficulties: seq<string> := ["Easy", "Medium", "Hard"]
  const ValidationMessage: string := "Please fill in all required fields (marked with *)."

  /** The values the form submits. `gameType` is `None` when the type list is
      empty and the select box has nothing to offer. */
  datatype GameForm = GameForm(
    gameName: string,
    gameType: Option<string>,
    difficulty: string,
    minPlayers: int,
    maxPlayers: int,
    minAge: int,
    minDuration: int,
    materials: string,
    explanation: string,
    rules: string,
    scoreCalculation: string,
    example: string,
    expansions: string,
    drinkingRules: string)

  /** What the form's widgets guarantee: the player minimum is at least 1 and
      bounds the maximum, the age is not negative, the duration is at least 1,
      and the difficulty comes from its select box. */
  predicate WidgetBounds(f: GameForm) {
    1 <= f.minPlayers <= f.maxPlayers && f.minAge >= 0 && f.minDuration >= 1 && f.difficulty in Difficulties
  }

  /** A document of the `games` collection as this form writes it. */
  datatype GameRecord = GameRecord(
    gameName: string,
    gameType: string,
    difficulty: string,
    minPlayers: int,
    maxPlayers: int,
    minAge: int,
    minDuration: int,
    materials: seq<string>,
    explanation: string,
    rules: string,
    scoreCalculation: string,
    example: string,
    expansions: seq<string>,
    drinkingRules: string,
    imagePath: string)

  /** The session-state value `add_status`; `Idle` is Python's `None`. */
  datatype AddStatus = Idle | ErrorValidation | ErrorDuplicate | Success

  /** What a submission does to the collection. */
  datatype Decision = Invalid | Duplicate | Insert(record: GameRecord)

  predicate MissingRequired(f: GameForm) {
    f.gameName == "" || f.gameType.GetOr("") == "" || f.explanation == ""
  }

  predicate NameTaken(games: seq<GameRecord>, name: string) {
    exists k :: 0 <= k < |games| && games[k].gameName == name
  }

  predicate UniqueNames(games: seq<GameRecord>) {
    forall i, j :: 0 <= i < j < |games| ==> games[i].gameName != games[j].gameName
  }

  /** A list item as the parser leaves it: non-empty, stripped, without commas. */
  predicate CleanList(xs: seq<string>) {
    forall k :: 0 <= k < |xs| ==> xs[k] != "" && IsStripped(xs[k]) && ',' !in xs[k]
  }

  predicate WellFormed(r: GameRecord) {
    && r.gameName != "" && r.gameType != "" && r.explanation != ""
    && 1 <= r.minPlayers <= r.maxPlayers && r.minAge >= 0 && r.minDuration >= 1
    && r.difficulty in Difficulties
    && CleanList(r.materials) && CleanList(r.expansions)
  }

  /** The document built from a form: the two list fields are parsed, every
      other field is stored as entered, and the image path is empty. */
  function NewGame(f: GameForm): GameRecord {
    GameRecord(f.gameName, f.gameType.GetOr(""), f.difficulty, f.minPlayers, f.maxPlayers,
               f.minAge, f.minDuration, ParseCommaList(f.materials), f.explanation, f.rules,
               f.scoreCalculation, f.example, ParseCommaList(f.expansions), f.drinkingRules, "")
  }

  function Decide(games: seq<GameRecord>, f: GameForm): (d: Decision)
    ensures d.Invalid? <==> MissingRequired(f)
    ensures d.Duplicate? <==> !MissingRequired(f) && NameTaken(games, f.gameName)
    ensures d.Insert? ==> d.record.gameName == f.gameName && !NameTaken(games, f.gameName)
    ensures d.Insert? && WidgetBounds(f) ==> WellFormed(d.record)
  {
    if MissingRequired(f) then Invalid
    else if NameTaken(games, f.gameName) then Duplicate
    else Insert(NewGame(f))
  }

  /** The collection after a sequence of submissions, one after the other. */
  function SubmitAll(games: seq<GameRecord>, forms: seq<GameForm>): seq<GameRecord>
    decreases |forms|
  {
    if forms == [] then games
    else
      var next := match Decide(games, forms[0])
                  case Insert(r) => games + [r]
                  case _ => games;
      SubmitAll(next, forms[1..])
  }

  // ------------------------------------------------------------ properties

  lemma InsertKeepsNamesUnique(games: seq<GameRecord>, f: GameForm)
    requires UniqueNames(games)
    requires Decide(games, f).Insert?
    ensures UniqueNames(games + [Decide(games, f).record])
  {
    var r := Decide(games, f).record;
    var after := games + [r];
    forall i, j | 0 <= i < j < |after| ensures after[i].gameName != after[j].gameName {
      if j == |games| {
        assert after[i] == games[i];
      }
    }
  }

  /** Submissions made one after the other never create two games with the same name. */
  lemma {:induction false} SubmitAllKeepsNamesUnique(games: seq<GameRecord>, forms: seq<GameForm>)
    requires UniqueNames(games)
    ensures UniqueNames(SubmitAll(games, forms))
    decreases |forms|
  {
    if forms != [] {
      match Decide(games, forms[0])
      case Insert(r) =>
        InsertKeepsNamesUnique(games, forms[0]);
        SubmitAllKeepsNamesUnique(games + [r], forms[1..]);
      case _ =>
        SubmitAllKeepsNamesUnique(games, forms[1..]);
    }
  }

  /** A game never disappears, and every stored game keeps the widget bounds. */
  lemma {:induction false} SubmitAllKeepsWellFormed(games: seq<GameRecord>, forms: seq<GameForm>)
    requires forall k :: 0 <= k < |games| ==> WellFormed(games[k])
    requires forall k :: 0 <= k < |forms| ==> WidgetBounds(forms[k])
    ensures games <= SubmitAll(games, forms)
    ensures forall k :: 0 <= k < |SubmitAll(games, forms)| ==> WellFormed(SubmitAll(games, forms)[k])
    decreases |forms|
  {
    if forms != [] {
      match Decide(games, forms[0])
      case Insert(r) =>
        var next := games + [r];
        assert WidgetBounds(forms[0]);
        SubmitAllKeepsWellFormed(next, forms[1..]);
      case _ =>
        SubmitAllKeepsWellFormed(games, forms[1..]);
    }
  }

  /** A materials or expansions list typed as its items joined by commas is
      stored as exactly those items. */
  lemma NewGameStoresTypedLists(f: GameForm, materials: seq<string>, expansions: seq<string>)
    requires CleanList(materials) && CleanList(expansions)
    requires f.materials == Join(materials, ',') && f.expansions == Join(expansions, ',')
    ensures NewGame(f).materials == materials && NewGame(f).expansions == expansions
  {
    ParseJoinRoundTrip(materials);
    ParseJoinRoundTrip(expansions);
  }

  // ------------------------------------------------------------ the page

  /** The `games` collection together with the page's session-state fields. */
  class AddGameSession {
    var games: seq<GameRecord>
    var addStatus: AddStatus
    var validationMessage: Option<string>
    var duplicateGame: Option<string>
    var addedGameName: Option<string>

    /** Each status that the page reports carries the value it reports. */
    predicate Valid()
      reads this
    {
      && (addStatus == ErrorValidation ==> validationMessage == Some(ValidationMessage))
      && (addStatus == ErrorDuplicate ==> duplicateGame.Some?)
      && (addStatus == Success ==> addedGameName.Some?)
    }

    /** The first visit: `add_status` is initialised to `None`. */
    constructor (games: seq<GameRecord>)
      ensures Valid()
      ensures this.games == games && addStatus == Idle
      ensures validationMessage == None && duplicateGame == None && addedGameName == None
    {
      this.games := games;
      addStatus := Idle;
      validationMessage := None;
      duplicateGame := None;
      addedGameName := None;
    }

    /** The "Add Game" button. */
    method Submit(form: GameForm)
      requires Valid() && WidgetBounds(form)
      modifies this
      ensures Valid()
      ensures games == SubmitAll(old(games), [form])
      ensures MissingRequired(form) ==>
                addStatus == ErrorValidation && validationMessage == Some(ValidationMessage)
                && games == old(games)
                && duplicateGame == old(duplicateGame) && addedGameName == old(addedGameName)
      ensures !MissingRequired(form) && NameTaken(old(games), form.gameName) ==>
                addStatus == ErrorDuplicate && duplicateGame == Some(form.gameName)
                && games == old(games)
                && validationMessage == old(validationMessage) && addedGameName == old(addedGameName)
      ensures !MissingRequired(form) && !NameTaken(old(games), form.gameName) ==>
                addStatus == Success && addedGameName == Some(form.gameName)
                && games == old(games) + [NewGame(form)] && WellFormed(NewGame(form))
                && validationMessage == old(validationMessage) && duplicateGame == old(duplicateGame)
      ensures old(UniqueNames(games)) ==> UniqueNames(games)
    {
      match Decide(games, form)
      case Invalid =>
        addStatus := ErrorValidation;
        validationMessage := Some(ValidationMessage);
      case Duplicate =>
        addStatus := ErrorDuplicate;
        duplicateGame := Some(form.gameName);
      case Insert(record) =>
        if UniqueNames(games) {
          InsertKeepsNamesUnique(games, form);
        }
        games := games + [record];
        addStatus := Success;
        addedGameName := Some(form.gameName);
    }

    /** The "Add Another Game" button, shown after a success. */
    method AddAnother()
      requires addStatus == Success && Valid()
      modifies this
      ensures Valid()
      ensures addStatus == Idle && addedGameName == None
      ensures games == old(games) && validationMessage == old(validationMessage)
      ensures duplicateGame == old(duplicateGame)
    {
      addStatus := Idle;
      addedGameName := None;
    }

    /** The "OK" button under a validation error. */
    method DismissValidation()
      requires addStatus == ErrorValidation && Valid()
      modifies this
      ensures Valid()
      ensures addStatus == Idle
      ensures games == old(games) && validationMessage == old(validationMessage)
      ensures duplicateGame == old(duplicateGame) && addedGameName == old(addedGameName)
    {
      addStatus := Idle;
    }

    /** The "OK" button under a duplicate-name error. */
    method DismissDuplicate()
      requires addStatus == ErrorDuplicate && Valid()
      modifies this
      ensures Valid()
      ensures addStatus == Idle && duplicateGame == None
      ensures games == old(games) && validationMessage == old(validationMessage)
      ensures addedGameName == old(addedGameName)
    {
      addStatus := Idle;
      duplicateGame := None;
    }
  }
}
