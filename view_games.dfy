/** The catalogue search and filter of the games page, and the upper bound of
    its player-count slider. */
module ViewGames {
  import opened Wrappers
  import opened Seqs
  import opened Text

  /** The `materials` field of a game document: missing, a list of strings, or
      some other value such as a plain string. */
  datatype Materials = Absent | Listed(items: seq<string>) | Scalar(text: string)

  /** A game document as the catalogue reads it. Every field may be missing. */
  datatype Game = Game(
    name: Option<string>,
    gameType: Option<string>,
    explanation: Option<string>,
    materials: Materials,
    difficulty: Option<string>,
    minPlayers: Option<int>,
    maxPlayers: Option<int>)

  /** The arguments of a search: a free-text term, a difficulty, and two player
      counts. `None` and the empty term switch a criterion off. */
  datatype Criteria = Criteria(
    searchTerm: string,
    difficulty: Option<string>,
    minPlayers: Option<int>,
    maxPlayers: Option<int>)

  const DefaultMinPlayers: int := 0
  const DefaultMaxPlayers: int := 999
  const SliderFloor: int := 12

  // ------------------------------------------------------------ the criteria

  /** A text field contains the (already lower-cased) term, case-insensitively;
      a missing field reads as the empty string. */
  predicate FieldMatches(field: Option<string>, term: string) {
    Contains(Lower(field.GetOr("")), term)
  }

  /** Some material contains the term; only a list of materials is searched. */
  predicate MaterialMatches(m: Materials, term: string) {
    m.Listed? && exists k :: 0 <= k < |m.items| && Contains(Lower(m.items[k]), term)
  }

  predicate MatchesSearch(g: Game, term: string) {
    || FieldMatches(g.name, term)
    || FieldMatches(g.gameType, term)
    || FieldMatches(g.explanation, term)
    || MaterialMatches(g.materials, term)
  }

  /** The difficulty criterion is on unless it is missing, empty or "All". */
  predicate DifficultyFilterOn(difficulty: Option<string>) {
    difficulty.Some? && difficulty.value != "" && difficulty.value != "All"
  }

  /** The player count lies in the game's range; missing bounds default to 0 and 999. */
  predicate FitsPlayers(g: Game, n: int) {
    g.minPlayers.GetOr(DefaultMinPlayers) <= n <= g.maxPlayers.GetOr(DefaultMaxPlayers)
  }

  /** A game passes every criterion that is switched on. */
  predicate AcceptsGame(c: Criteria, g: Game) {
    && (c.searchTerm != "" ==> MatchesSearch(g, Lower(c.searchTerm)))
    && (DifficultyFilterOn(c.difficulty) ==> g.difficulty == c.difficulty)
    && (c.minPlayers.Some? ==> FitsPlayers(g, c.minPlayers.value))
    && (c.maxPlayers.Some? ==> FitsPlayers(g, c.maxPlayers.value))
  }

  function SearchPredicate(term: string): Game -> bool {
    g => MatchesSearch(g, term)
  }

  function DifficultyPredicate(difficulty: Option<string>): Game -> bool {
    (g: Game) => g.difficulty == difficulty
  }

  function PlayersPredicate(n: int): Game -> bool {
    g => FitsPlayers(g, n)
  }

  function Accepts(c: Criteria): Game -> bool {
    g => AcceptsGame(c, g)
  }

  /** The games left after the search stage. */
  function Searched(games: seq<Game>, c: Criteria): seq<Game> {
    if c.searchTerm != "" then Filter(games, SearchPredicate(Lower(c.searchTerm))) else games
  }

  /** The games left after the search and difficulty stages. */
  function Graded(games: seq<Game>, c: Criteria): seq<Game> {
    var searched := Searched(games, c);
    if DifficultyFilterOn(c.difficulty) then Filter(searched, DifficultyPredicate(c.difficulty)) else searched
  }

  /** The specification of the search: one stage per criterion, each a
      comprehension over the previous stage's survivors. */
  function FilterGames(games: seq<Game>, c: Criteria): seq<Game> {
    PlayerStages(Graded(games, c), c)
  }

  /** The two player-count stages applied to the survivors `s` of the others. */
  function PlayerStages(s: seq<Game>, c: Criteria): seq<Game> {
    var fromMin := if c.minPlayers.Some? then Filter(s, PlayersPredicate(c.minPlayers.value)) else s;
    if c.maxPlayers.Some? then Filter(fromMin, PlayersPredicate(c.maxPlayers.value)) else fromMin
  }

  // The criteria one by one, each true when it is switched off.

  function SearchCriterion(c: Criteria): Game -> bool {
    (g: Game) => c.searchTerm != "" ==> MatchesSearch(g, Lower(c.searchTerm))
  }

  function DifficultyCriterion(c: Criteria): Game -> bool {
    (g: Game) => DifficultyFilterOn(c.difficulty) ==> g.difficulty == c.difficulty
  }

  function MinCriterion(c: Criteria): Game -> bool {
    (g: Game) => c.minPlayers.Some? ==> FitsPlayers(g, c.minPlayers.value)
  }

  function MaxCriterion(c: Criteria): Game -> bool {
    (g: Game) => c.maxPlayers.Some? ==> FitsPlayers(g, c.maxPlayers.value)
  }

  function Both(p: Game -> bool, q: Game -> bool): Game -> bool {
    (g: Game) => p(g) && q(g)
  }

  // ------------------------------------------------------------ the search

  /** The inner loop over a game's materials: stops at the first material
      that contains the term. */
  method AnyMaterialMatches(items: seq<string>, term: string) returns (found: bool)
    ensures found <==> MaterialMatches(Listed(items), term)
  {
    found := false;
    var k := 0;
    while k < |items|
      invariant 0 <= k <= |items|
      invariant forall m :: 0 <= m < k ==> !Contains(Lower(items[m]), term)
    {
      if Contains(Lower(items[k]), term) {
        found := true;
        break;
      }
      k := k + 1;
    }
  }

  /** The search loop: collects, in order, the games that match the term. */
  method SearchLoop(games: seq<Game>, term: string) returns (results: seq<Game>)
    ensures results == Filter(games, SearchPredicate(term))
  {
    results := [];
    var i := 0;
    while i < |games|
      invariant 0 <= i <= |games|
      invariant results == Filter(games[..i], SearchPredicate(term))
    {
      var game := games[i];
      assert games[..i + 1] == games[..i] + [game];
      FilterAppend(games[..i], game, SearchPredicate(term));
      if FieldMatches(game.name, term) || FieldMatches(game.gameType, term) || FieldMatches(game.explanation, term) {
        results := results + [game];
      } else if game.materials.Listed? {
        var found := AnyMaterialMatches(game.materials.items, term);
        if found {
          results := results + [game];
        }
      }
      i := i + 1;
    }
    assert games[..|games|] == games;
  }

  /** Runs the search: the search loop, then the difficulty and player-count
      comprehensions. */
  method SearchAndFilterGames(games: seq<Game>, searchTerm: string, difficulty: Option<string>,
                              minPlayers: Option<int>, maxPlayers: Option<int>)
    returns (filtered: seq<Game>)
    ensures filtered == FilterGames(games, Criteria(searchTerm, difficulty, minPlayers, maxPlayers))
    ensures forall g :: g in filtered <==>
              g in games && AcceptsGame(Criteria(searchTerm, difficulty, minPlayers, maxPlayers), g)
  {
    filtered := games;
    if searchTerm != "" {
      filtered := SearchLoop(games, Lower(searchTerm));
    }
    if difficulty.Some? && difficulty.value != "" && difficulty.value != "All" {
      filtered := Filter(filtered, DifficultyPredicate(difficulty));
    }
    if minPlayers.Some? {
      filtered := Filter(filtered, PlayersPredicate(minPlayers.value));
    }
    if maxPlayers.Some? {
      filtered := Filter(filtered, PlayersPredicate(maxPlayers.value));
    }
    ghost var c := Criteria(searchTerm, difficulty, minPlayers, maxPlayers);
    assert filtered == FilterGames(games, c);
    forall g ensures g in filtered <==> g in games && AcceptsGame(c, g) {
      FilterGamesMembership(games, c, g);
    }
  }

  /** How the page calls the search: the difficulty "All" becomes no
      difficulty, and the one slider value is passed as both player counts. */
  method ApplyPageFilters(allGames: seq<Game>, searchTerm: string, selectedDifficulty: string, playerCount: int)
    returns (shown: seq<Game>)
    ensures shown == FilterGames(allGames, Criteria(searchTerm,
                       if selectedDifficulty != "All" then Some(selectedDifficulty) else None,
                       Some(playerCount), None))
    ensures forall g :: g in shown ==> FitsPlayers(g, playerCount)
  {
    var difficulty := if selectedDifficulty != "All" then Some(selectedDifficulty) else None;
    shown := SearchAndFilterGames(allGames, searchTerm, difficulty, Some(playerCount), Some(playerCount));
    SamePlayerCountTwice(allGames, Criteria(searchTerm, difficulty, Some(playerCount), None), playerCount);
  }

  // ------------------------------------------------------------ the slider

  /** The upper bound of the player-count slider: 12, or the largest
      `max_players` in the catalogue when that is larger. */
  method SliderMax(games: seq<Game>) returns (bound: int)
    ensures bound >= SliderFloor
    ensures forall i :: 0 <= i < |games| && games[i].maxPlayers.Some? ==> games[i].maxPlayers.value <= bound
    ensures bound == SliderFloor || exists i :: 0 <= i < |games| && games[i].maxPlayers == Some(bound)
  {
    var maxInGames := SliderFloor;
    for i := 0 to |games|
      invariant maxInGames >= SliderFloor
      invariant forall j :: 0 <= j < i && games[j].maxPlayers.Some? ==> games[j].maxPlayers.value <= maxInGames
      invariant maxInGames == SliderFloor || exists j :: 0 <= j < i && games[j].maxPlayers == Some(maxInGames)
    {
      var maxGamePlayers := games[i].maxPlayers.GetOr(0);
      if maxGamePlayers > maxInGames {
        maxInGames := maxGamePlayers;
      }
    }
    bound := if SliderFloor >= maxInGames then SliderFloor else maxInGames;
  }

  /** The slider's initial value: the remembered player count, clamped to the bound. */
  function SliderValue(remembered: int, bound: int): (v: int)
    ensures v <= bound
    ensures v == remembered || v == bound
    ensures remembered <= bound ==> v == remembered
  {
    if remembered <= bound then remembered else bound
  }

  // ------------------------------------------------------------ properties

  lemma StageIsFilter(s: seq<Game>, on: bool, p: Game -> bool, q: Game -> bool)
    requires forall g :: q(g) == (on ==> p(g))
    ensures (if on then Filter(s, p) else s) == Filter(s, q)
  {
    if !on {
      FilterKeepsAll(s, q);
    } else {
      FilterFilter(s, q, q, p);
      FilterIdempotent(s, q);
    }
  }

  /** The search and difficulty stages equal one filter by both criteria. */
  lemma GradedIsFilter(games: seq<Game>, c: Criteria)
    ensures Graded(games, c) == Filter(games, Both(SearchCriterion(c), DifficultyCriterion(c)))
  {
    var searched := Searched(games, c);
    StageIsFilter(games, c.searchTerm != "", SearchPredicate(Lower(c.searchTerm)), SearchCriterion(c));
    StageIsFilter(searched, DifficultyFilterOn(c.difficulty), DifficultyPredicate(c.difficulty), DifficultyCriterion(c));
    FilterFilter(games, SearchCriterion(c), DifficultyCriterion(c), Both(SearchCriterion(c), DifficultyCriterion(c)));
  }

  /** The two player-count stages equal one filter by both bounds. */
  lemma PlayerStagesIsFilter(s: seq<Game>, c: Criteria)
    ensures PlayerStages(s, c) == Filter(s, Both(MinCriterion(c), MaxCriterion(c)))
  {
    var fromMin := if c.minPlayers.Some? then Filter(s, PlayersPredicate(c.minPlayers.value)) else s;
    StageIsFilter(s, c.minPlayers.Some?, PlayersPredicate(if c.minPlayers.Some? then c.minPlayers.value else 0), MinCriterion(c));
    StageIsFilter(fromMin, c.maxPlayers.Some?, PlayersPredicate(if c.maxPlayers.Some? then c.maxPlayers.value else 0), MaxCriterion(c));
    FilterFilter(s, MinCriterion(c), MaxCriterion(c), Both(MinCriterion(c), MaxCriterion(c)));
  }

  /** The staged search equals one filter by the conjunction of the criteria. */
  lemma FilterGamesIsFilter(games: seq<Game>, c: Criteria)
    ensures FilterGames(games, c) == Filter(games, Accepts(c))
  {
    var s12 := Both(SearchCriterion(c), DifficultyCriterion(c));
    var s34 := Both(MinCriterion(c), MaxCriterion(c));
    GradedIsFilter(games, c);
    PlayerStagesIsFilter(Graded(games, c), c);
    FilterFilter(games, s12, s34, Accepts(c));
  }

  /** A game is shown iff it is in the catalogue and passes every active criterion. */
  lemma FilterGamesMembership(games: seq<Game>, c: Criteria, g: Game)
    ensures g in FilterGames(games, c) <==> g in games && AcceptsGame(c, g)
  {
    FilterGamesIsFilter(games, c);
    if g in games && AcceptsGame(c, g) {
      var i :| 0 <= i < |games| && games[i] == g;
    }
  }

  /** With no active criterion the catalogue is returned unchanged, in order. */
  lemma NoCriteriaKeepsAll(games: seq<Game>, c: Criteria)
    requires c.searchTerm == "" && !DifficultyFilterOn(c.difficulty)
    requires c.minPlayers.None? && c.maxPlayers.None?
    ensures FilterGames(games, c) == games
  {
  }

  /** The result keeps the catalogue's order and holds each game as many times
      as the catalogue does, or not at all: a game matching in several fields
      or materials is not repeated. */
  lemma FilterGamesSubsequence(games: seq<Game>, c: Criteria, g: Game)
    ensures IsSubsequence(FilterGames(games, c), games)
    ensures multiset(FilterGames(games, c))[g] == if AcceptsGame(c, g) then multiset(games)[g] else 0
  {
    FilterGamesIsFilter(games, c);
    FilterIsSubsequence(games, Accepts(c));
    FilterMultiplicity(games, Accepts(c), g);
  }

  /** Under a non-empty term alone, a game is kept iff the lower-cased term
      occurs in its lower-cased name, type or explanation, or in one of its
      listed materials. */
  lemma SearchOnly(games: seq<Game>, term: string, g: Game)
    requires term != ""
    ensures g in FilterGames(games, Criteria(term, None, None, None)) <==>
            g in games &&
            (|| Contains(Lower(g.name.GetOr("")), Lower(term))
             || Contains(Lower(g.gameType.GetOr("")), Lower(term))
             || Contains(Lower(g.explanation.GetOr("")), Lower(term))
             || (g.materials.Listed? &&
                 exists k :: 0 <= k < |g.materials.items| && Contains(Lower(g.materials.items[k]), Lower(term))))
  {
    FilterGamesMembership(games, Criteria(term, None, None, None), g);
  }

  /** A `materials` value that is not a list never makes a game match. */
  lemma ScalarMaterialsIgnored(g: Game, term: string)
    requires g.materials.Scalar?
    ensures MatchesSearch(g, term) <==> MatchesSearch(g.(materials := Absent), term)
  {
  }

  /** With the difficulty criterion on, every result has that difficulty, and
      no game passing the other criteria with that difficulty is dropped. */
  lemma DifficultyExact(games: seq<Game>, c: Criteria, g: Game)
    requires DifficultyFilterOn(c.difficulty)
    ensures g in FilterGames(games, c) ==> g.difficulty == c.difficulty
    ensures g in FilterGames(games, c.(difficulty := None)) && g.difficulty == c.difficulty ==>
            g in FilterGames(games, c)
  {
    FilterGamesMembership(games, c, g);
    FilterGamesMembership(games, c.(difficulty := None), g);
  }

  /** Every result admits the given player counts, with missing bounds read as 0 and 999. */
  lemma PlayerBounds(games: seq<Game>, c: Criteria, g: Game)
    requires g in FilterGames(games, c)
    ensures c.minPlayers.Some? ==>
            g.minPlayers.GetOr(0) <= c.minPlayers.value <= g.maxPlayers.GetOr(999)
    ensures c.maxPlayers.Some? ==>
            g.minPlayers.GetOr(0) <= c.maxPlayers.value <= g.maxPlayers.GetOr(999)
  {
    FilterGamesMembership(games, c, g);
  }

  /** Passing the same count as the second bound removes nothing more. */
  lemma SamePlayerCountTwice(games: seq<Game>, c: Criteria, n: int)
    requires c.minPlayers == Some(n) && c.maxPlayers.None?
    ensures FilterGames(games, c.(maxPlayers := Some(n))) == FilterGames(games, c)
  {
    var fromMin := FilterGames(games, c);
    forall i | 0 <= i < |fromMin| ensures PlayersPredicate(n)(fromMin[i]) {
      FilterGamesMembership(games, c, fromMin[i]);
    }
    FilterKeepsAll(fromMin, PlayersPredicate(n));
  }

  /** Searching the results again with the same criteria changes nothing. */
  lemma FilterGamesIdempotent(games: seq<Game>, c: Criteria)
    ensures FilterGames(FilterGames(games, c), c) == FilterGames(games, c)
  {
    FilterGamesIsFilter(games, c);
    FilterGamesIsFilter(FilterGames(games, c), c);
    FilterIdempotent(games, Accepts(c));
  }

  function Uno(): Game {
    Game(Some("Uno"), Some("Card"), Some("match colors"), Listed(["cards"]), Some("Easy"), Some(2), Some(10))
  }

  function Chess(): Game {
    Game(Some("Chess"), Some("Board"), Some("checkmate"), Listed(["board", "pieces"]), Some("Hard"), Some(2), Some(2))
  }

  lemma FilterPair(a: Game, b: Game, c: Criteria)
    ensures FilterGames([a, b], c) ==
            (if AcceptsGame(c, a) then [a] else []) + (if AcceptsGame(c, b) then [b] else [])
  {
    FilterGamesIsFilter([a, b], c);
    assert [a, b][1..] == [b];
    assert [b][1..] == [];
  }

  /** No window of `hay` starting with the needle's first character continues with the rest of it. */
  lemma {:induction false} NotContained(hay: string, needle: string)
    requires |needle| > 0
    requires forall i :: 0 <= i < |hay| && hay[i] == needle[0] ==> !(needle <= hay[i..])
    ensures !Contains(hay, needle)
    decreases |hay|
  {
    if |hay| > 0 {
      assert hay[0..] == hay;
      forall i | 0 <= i < |hay[1..]| && hay[1..][i] == needle[0] ensures !(needle <= hay[1..][i..]) {
        assert hay[1..][i..] == hay[i + 1..];
      }
      NotContained(hay[1..], needle);
    }
  }

  lemma LowerAscii(s: string)
    requires forall i :: 0 <= i < |s| ==> !('A' <= s[i] <= 'Z')
    ensures Lower(s) == s
  {
  }

  lemma UnoMissesChe()
    ensures !MatchesSearch(Uno(), "che")
  {
    UnoNameMissesChe();
    CardMissesChe();
    ExplanationMissesChe();
    CardsMissesChe();
  }

  lemma UnoNameMissesChe()
    ensures !FieldMatches(Some("Uno"), "che")
  {
    assert Lower("Uno") == "uno";
    NotContained("uno", "che");
  }

  lemma CardMissesChe()
    ensures !FieldMatches(Some("Card"), "che")
  {
    assert Lower("Card") == "card";
    NotContained("card", "che");
  }

  lemma ExplanationMissesChe()
    ensures !FieldMatches(Some("match colors"), "che")
  {
    MatchColorsLowered();
    MatchColorsMissesChe();
  }

  lemma MatchColorsLowered()
    ensures Lower("match colors") == "match colors"
  {
    LowerAscii("match colors");
  }

  lemma CardsMissesChe()
    ensures !MaterialMatches(Listed(["cards"]), "che")
  {
    LowerAscii("cards");
    NotContained("cards", "che");
  }

  lemma MatchColorsMissesChe()
    ensures !Contains("match colors", "che")
  {
    var hay := "match colors";
    forall i | 0 <= i < |hay| && hay[i] == 'c' ensures !("che" <= hay[i..]) {
      assert i == 3 || i == 6;
      assert hay[i + 2] != 'e';
    }
    NotContained(hay, "che");
  }

  /** The example of the search's description: "che" finds Chess through its name only. */
  lemma SearchExample()
    ensures FilterGames([Uno(), Chess()], Criteria("che", None, None, None)) == [Chess()]
  {
    var c := Criteria("che", None, None, None);
    ChessMatchesChe();
    UnoRejectedByChe();
    FilterPair(Uno(), Chess(), c);
  }

  lemma UnoRejectedByChe()
    ensures !AcceptsGame(Criteria("che", None, None, None), Uno())
  {
    assert Lower("che") == "che";
    UnoMissesChe();
  }

  lemma ChessMatchesChe()
    ensures AcceptsGame(Criteria("che", None, None, None), Chess())
  {
    assert Lower("che") == "che";
    assert Lower("Chess") == "chess";
    assert "che" <= "chess";
  }

  /** The difficulty "Easy" and the player count 5 each leave only Uno. */
  lemma DifficultyAndPlayersExample()
    ensures FilterGames([Uno(), Chess()], Criteria("", Some("Easy"), None, None)) == [Uno()]
    ensures FilterGames([Uno(), Chess()], Criteria("", None, Some(5), None)) == [Uno()]
  {
    FilterPair(Uno(), Chess(), Criteria("", Some("Easy"), None, None));
    FilterPair(Uno(), Chess(), Criteria("", None, Some(5), None));
  }
}
