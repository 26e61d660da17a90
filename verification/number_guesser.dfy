/** NumberGuesser4: a guessing game whose level rises on a correct guess and
    falls after too many wrong ones, with its state saved to and loaded from
    a two-line CSV text. Console and file I/O are replaced by the strings
    read and written; the random pick is a draw passed in. */
module NumberGuesser {
  import opened Common
  import opened Decimal
  import opened Strings

  /** The game's fields; all are Java `int`s. */
  datatype Game = Game(maxLevel: Int32, level: Int32, strikes: Int32, maxStrikes: Int32,
                       number: Int32, pickNewRandom: bool)

  /** The field initialisers. */
  const Initial: Game := Game(1, 1, 0, 5, -1, true)

  const Header: string := "Level,Strikes,Number,MaxLevel,MaxStrikes"

  /** win: the level goes up, the strikes are cleared. */
  function Win(g: Game): (r: Game)
    ensures r.level == Wrap(g.level + 1) && r.strikes == 0
    ensures r == g.(level := r.level, strikes := 0)
  {
    g.(level := Wrap(g.level + 1), strikes := 0)
  }

  /** lose: the strikes are cleared and the level goes down, but not below 1. */
  function Lose(g: Game): (r: Game)
    ensures r.strikes == 0 && r.level >= 1
    ensures g.level > 1 ==> r.level == g.level - 1
    ensures MinInt < g.level <= 1 ==> r.level == 1
    ensures g.level == MinInt ==> r.level == MaxInt
    ensures r == g.(level := r.level, strikes := 0)
  {
    var down := Wrap(g.level - 1);
    g.(strikes := 0, level := if down < 1 then 1 else down)
  }

  /** The result of a guess: the new state and the text saveState writes, if it runs. */
  datatype Guessed = Guessed(game: Game, saved: Option<string>)

  /** processGuess. */
  function ProcessGuess(g: Game, guess: Int32): (r: Guessed)
    ensures guess < 0 ==> r == Guessed(g, None)
    ensures guess >= 0 ==> r.saved == Some(Save(r.game))
    ensures guess >= 0 && guess == g.number ==>
      r.game == g.(level := Wrap(g.level + 1), strikes := 0, pickNewRandom := true)
    ensures guess >= 0 && guess != g.number && Wrap(g.strikes + 1) < g.maxStrikes ==>
      r.game == g.(strikes := Wrap(g.strikes + 1))
    ensures guess >= 0 && guess != g.number && Wrap(g.strikes + 1) >= g.maxStrikes ==>
      && r.game.strikes == 0 && r.game.pickNewRandom
      && (g.level > 1 ==> r.game.level == g.level - 1)
      && (MinInt < g.level <= 1 ==> r.game.level == 1)
      && r.game.level >= 1
      && r.game == g.(level := r.game.level, strikes := 0, pickNewRandom := true)
  {
    if guess < 0 then Guessed(g, None)
    else
      var next :=
        if guess == g.number then Win(g).(pickNewRandom := true)
        else
          var struck := g.(strikes := Wrap(g.strikes + 1));
          if struck.strikes >= struck.maxStrikes then Lose(struck).(pickNewRandom := true) else struck;
      Guessed(next, Some(Save(next)))
  }

  /** The bound generateNewNumber passes to nextInt: 10 + (level - 1) * 5 in `int` arithmetic. */
  function Range(level: Int32): Int32 {
    Wrap(10 + Wrap(Wrap(level - 1) * 5))
  }

  /** generateNewNumber: nextInt(range) + 1, where `draw` is nextInt's answer;
      a bound that is not positive makes nextInt throw. */
  function GenerateNewNumber(g: Game, draw: int): (r: Result<Game>)
    requires Range(g.level) > 0 ==> 0 <= draw < Range(g.level)
    ensures r.Err? <==> Range(g.level) <= 0
    ensures r.Err? ==> r.error == IllegalArgument
    ensures r.Ok? ==> 1 <= r.value.number <= Range(g.level) && r.value == g.(number := r.value.number)
  {
    var range := Range(g.level);
    if range <= 0 then Err(IllegalArgument) else Ok(g.(number := draw + 1))
  }

  /** The top of the game loop: when a new number is due it is drawn, the
      state saved, and the flag cleared. */
  function BeginRound(g: Game, draw: int): (r: Result<Guessed>)
    requires Range(g.level) > 0 ==> 0 <= draw < Range(g.level)
    ensures !g.pickNewRandom ==> r == Ok(Guessed(g, None))
    ensures g.pickNewRandom ==> (r.Err? <==> Range(g.level) <= 0)
    ensures r.Ok? && g.pickNewRandom ==>
      && !r.value.game.pickNewRandom
      && 1 <= r.value.game.number <= Range(g.level)
      && r.value.saved == Some(Save(r.value.game.(pickNewRandom := true)))
      && r.value.game == g.(number := r.value.game.number, pickNewRandom := false)
  {
    if !g.pickNewRandom then Ok(Guessed(g, None))
    else
      match GenerateNewNumber(g, draw)
      case Err(e) => Err(e)
      case Ok(picked) => Ok(Guessed(picked.(pickNewRandom := false), Some(Save(picked))))
  }

  /** The strike limits of the three difficulties. */
  function StrikesFor(difficulty: string): Int32 {
    if difficulty == "easy" then 10
    else if difficulty == "medium" then 5
    else if difficulty == "hard" then 3
    else 5
  }

  /** selectDifficulty, given the line read. */
  function SelectDifficulty(g: Game, line: string): (r: Game)
    ensures r == g.(maxStrikes := r.maxStrikes)
    ensures r.maxStrikes in {10, 5, 3}
  {
    g.(maxStrikes := StrikesFor(ToLower(line)))
  }

  /** strToNum: the trimmed text's value, or -1 when it is not an `int`. */
  function StrToNum(text: string): (r: Int32)
    ensures r != -1 ==> ParseInt(Trim(text)) == Some(r)
    ensures ParseInt(Trim(text)).None? ==> r == -1
    ensures ParseInt(Trim(text)).Some? ==> r == ParseInt(Trim(text)).value
  {
    match ParseInt(Trim(text))
    case Some(v) => v
    case None => -1
  }

  function Fields(g: Game): seq<string> {
    [IntToString(g.level), IntToString(g.strikes), IntToString(g.number),
     IntToString(g.maxLevel), IntToString(g.maxStrikes)]
  }

  /** saveState: the header line, a newline, then the five fields joined by commas. */
  function Save(g: Game): (t: string)
    ensures |t| > |Header| && t[..|Header|] == Header && t[|Header|] == '\n'
  {
    Header + "\n" + Join(Fields(g), ",")
  }

  /** One field of the saved line overrides the current value only when it
      reads as a non-negative number. */
  function Override(current: Int32, field: string): (r: Int32)
    ensures StrToNum(field) > -1 ==> r == StrToNum(field)
    ensures StrToNum(field) <= -1 ==> r == current
  {
    var v := StrToNum(field);
    if v > -1 then v else current
  }

  /** loadState, given the file's content (None when the file is missing).
      Only the second line counts. With fewer than five fields the array
      index throws before anything is assigned, and the exception is caught. */
  function Load(g: Game, content: Option<string>): (r: Game)
    ensures content.None? ==> r == g
  {
    if content.None? then g
    else
      var lines := Lines(content.value);
      if |lines| < 2 then g else Assign(g, Split(lines[1], ','))
  }

  /** The assignments of loadState from the split second line; a loaded
      number means no new one is picked. */
  function Assign(g: Game, data: seq<string>): Game {
    if |data| < 5 then g
    else
      g.(level := Override(g.level, data[0]),
         strikes := Override(g.strikes, data[1]),
         number := Override(g.number, data[2]),
         pickNewRandom := if StrToNum(data[2]) > -1 then false else g.pickNewRandom,
         maxLevel := Override(g.maxLevel, data[3]),
         maxStrikes := Override(g.maxStrikes, data[4]))
  }

  /** A rendered `int` reads back through strToNum. */
  lemma StrToNumRendered(x: Int32)
    ensures StrToNum(IntToString(x)) == x
  {
    var s := IntToString(x);
    TrimUnblanked(s);
    ParseRendered(x);
  }

  /** A saved value when it is not negative, else the current one. */
  function Keep(current: Int32, saved: Int32): Int32 {
    if saved >= 0 then saved else current
  }

  /** The game `g0` becomes by loading what `g` saved. */
  function Restored(g0: Game, g: Game): Game {
    Game(Keep(g0.maxLevel, g.maxLevel), Keep(g0.level, g.level), Keep(g0.strikes, g.strikes),
         Keep(g0.maxStrikes, g.maxStrikes), Keep(g0.number, g.number),
         if g.number >= 0 then false else g0.pickNewRandom)
  }

  lemma AssignRendered(g0: Game, g: Game)
    ensures Assign(g0, Fields(g)) ==
      Restored(g0, g)
  {
    var data := Fields(g);
    assert data[0] == IntToString(g.level) && data[1] == IntToString(g.strikes);
    assert data[2] == IntToString(g.number) && data[3] == IntToString(g.maxLevel);
    assert data[4] == IntToString(g.maxStrikes);
    OverrideRendered(g0.level, g.level);
    OverrideRendered(g0.strikes, g.strikes);
    OverrideRendered(g0.number, g.number);
    OverrideRendered(g0.maxLevel, g.maxLevel);
    OverrideRendered(g0.maxStrikes, g.maxStrikes);
  }

  /** A saved field overrides exactly when its value is not negative. */
  lemma OverrideRendered(current: Int32, x: Int32)
    ensures Override(current, IntToString(x)) == Keep(current, x)
    ensures StrToNum(IntToString(x)) > -1 <==> x >= 0
  {
    StrToNumRendered(x);
  }

  lemma FieldsShape(g: Game)
    ensures |Fields(g)| == 5 && Fields(g)[4] != []
    ensures forall i :: 0 <= i < 5 ==> ',' !in Fields(g)[i] && '\n' !in Fields(g)[i]
  {
    forall i | 0 <= i < 5
      ensures ',' !in Fields(g)[i] && '\n' !in Fields(g)[i]
    {
      RenderedPlain(Fields(g)[i]);
    }
  }

  /** A rendered number holds only a sign and digits. */
  lemma RenderedPlain(s: string)
    requires |s| >= 1 && (s[0] == '-' || IsDigit(s[0])) && forall i :: 0 < i < |s| ==> IsDigit(s[i])
    ensures ',' !in s && '\n' !in s
  {
    forall i | 0 <= i < |s|
      ensures s[i] != ',' && s[i] != '\n'
    {
      if i > 0 {
        assert IsDigit(s[i]);
      }
    }
  }

  lemma HeaderPlain()
    ensures '\n' !in Header
  {
    var h := Header;
    assert forall i :: 0 <= i < |h| ==> h[i] != '\n';
  }

  /** Loading what was saved restores every field that was not negative;
      a negative field leaves the loading game's value in place. */
  lemma LoadAfterSave(g0: Game, g: Game)
    ensures Load(g0, Some(Save(g))) ==
      Restored(g0, g)
  {
    SavedLines(g);
    SavedFields(g);
    LoadFields(g0, Save(g), g);
  }

  /** The saved text is the header line and the data line. */
  lemma SavedLines(g: Game)
    ensures Lines(Save(g)) == [Header, Join(Fields(g), ",")]
  {
    FieldsShape(g);
    NoNewlineJoined(Fields(g));
    HeaderPlain();
    LinesOfTwo(Header, Join(Fields(g), ","));
  }

  /** Splitting the data line on commas gives the five fields back. */
  lemma SavedFields(g: Game)
    ensures Split(Join(Fields(g), ","), ',') == Fields(g)
  {
    FieldsShape(g);
    SplitJoin(Fields(g), ',');
  }

  /** Loading a text whose second line holds the fields of `g`. */
  lemma LoadFields(g0: Game, content: string, g: Game)
    requires |Lines(content)| >= 2 && Split(Lines(content)[1], ',') == Fields(g)
    ensures Load(g0, Some(content)) ==
      Restored(g0, g)
  {
    assert Load(g0, Some(content)) == Assign(g0, Fields(g));
    AssignRendered(g0, g);
  }

  /** The joined fields are one line, and not an empty one. */
  lemma NoNewlineJoined(fields: seq<string>)
    requires |fields| == 5 && fields[4] != []
    requires forall i :: 0 <= i < 5 ==> '\n' !in fields[i]
    ensures '\n' !in Join(fields, ",") && Join(fields, ",") != []
  {
    JoinAvoids(fields, ",", '\n');
  }

  lemma {:induction false} JoinAvoids(pieces: seq<string>, sep: string, c: char)
    requires c !in sep && forall i :: 0 <= i < |pieces| ==> c !in pieces[i]
    ensures c !in Join(pieces, sep)
    ensures |pieces| >= 1 && pieces[|pieces| - 1] != [] ==> Join(pieces, sep) != []
    decreases |pieces|
  {
    if |pieces| > 1 {
      JoinAvoids(pieces[1..], sep, c);
      var rest := Join(pieces[1..], sep);
      assert Join(pieces, sep) == pieces[0] + sep + rest;
    }
  }

  /** For the levels where 10 + (level - 1) * 5 fits an `int`, the range is
      that formula's value, so a level's numbers run from 1 to at least 10. */
  lemma RangeUnwrapped(level: Int32)
    requires 1 <= level <= 429496728
    ensures Range(level) == 10 + (level - 1) * 5 && Range(level) >= 10
  {
  }

  /** With at least one strike allowed, a guess keeps the level at least 1 and
      the strikes below the limit. Winning at the top `int` level wraps. */
  lemma GuessKeepsBounds(g: Game, guess: Int32)
    requires g.maxStrikes >= 1 && 1 <= g.level < MaxInt && 0 <= g.strikes < g.maxStrikes
    ensures var r := ProcessGuess(g, guess).game;
            r.level >= 1 && 0 <= r.strikes < r.maxStrikes && r.maxStrikes == g.maxStrikes
  {
  }

  /** The difficulty is chosen regardless of letter case. */
  lemma DifficultyIgnoresCase(g: Game, line: string)
    ensures EqualsIgnoreCase(line, "easy") ==> SelectDifficulty(g, line).maxStrikes == 10
    ensures EqualsIgnoreCase(line, "medium") ==> SelectDifficulty(g, line).maxStrikes == 5
    ensures EqualsIgnoreCase(line, "hard") ==> SelectDifficulty(g, line).maxStrikes == 3
    ensures SelectDifficulty(g, line).maxStrikes == 10 ==> EqualsIgnoreCase(line, "easy")
    ensures SelectDifficulty(g, line).maxStrikes == 3 ==> EqualsIgnoreCase(line, "hard")
  {
    LowerMatches(line, "easy");
    LowerMatches(line, "medium");
    LowerMatches(line, "hard");
  }

  /** Lower-casing a line gives a lower-case word exactly when the two are equal ignoring case. */
  lemma LowerMatches(line: string, word: string)
    requires forall i :: 0 <= i < |word| ==> 'a' <= word[i] <= 'z'
    ensures ToLower(line) == word <==> EqualsIgnoreCase(line, word)
  {
    if EqualsIgnoreCase(line, word) {
      forall i | 0 <= i < |word| ensures ToLower(line)[i] == word[i] {
        assert LowerChar(word[i]) == word[i];
      }
    }
    if ToLower(line) == word {
      forall i | 0 <= i < |word| ensures LowerChar(line[i]) == LowerChar(word[i]) {
        assert LowerChar(word[i]) == word[i];
      }
    }
  }
}
