/**
  The per-row category rules: each derived column of the event table is a total
  function of one raw cell (or, for object movement, of several).
 */
module Labels {
  import opened Optional
  import opened Text
  import opened Cells

  // Names of the raw columns the rules read.
  const InBuildingColumn: string := "pozorovaniodkud"
  const FearColumn: string := "reakcepanika"
  const TremorColumn: string := "popispohybu"
  const FeltByColumn: string := "kolikpozorvenku"
  const MovementColumns: seq<string> :=
    ["nabytektezky", "okna", "dvere", "zavespredmety", "nadobi", "malepredmety", "kapalina"]
  const DamageColumn: string := "poskozomitka"

  /* ---------- Place of observation: column 'Mist_Pozorovani_Kat' ---------- */

  datatype Location = Indoor | Outdoor {
    function Name(): string {
      match this
      case Indoor => "Doma (uvnitř)"
      case Outdoor => "Venku/Nezadáno v budově"
    }
  }

  /** Indoors when the cell, missing read as '', lower-cased, is exactly 'budova'. No trimming. */
  function LocationOf(c: Cell): Location {
    if Lower(FilledText(c)) == "budova" then Indoor else Outdoor
  }

  /**
    A row is labelled indoors exactly when its cell spells 'budova' in any mix of
    letter cases and nothing else, not even surrounding whitespace; a missing cell is
    outdoors.
   */
  lemma LocationIndoorIff(c: Cell)
    ensures LocationOf(c) == Indoor <==> c.Value? && SameIgnoringAsciiCase(c.text, "budova")
  {
    LowerEqualsAsciiWord(FilledText(c), "budova");
  }

  /** Leading whitespace makes ' budova' an outdoor answer, while 'BUDOVA' is indoor. */
  lemma LocationIsNotTrimmed()
    ensures LocationOf(Value(" budova", None)) == Outdoor
    ensures LocationOf(Value("BUDOVA", None)) == Indoor
    ensures LocationOf(Missing) == Outdoor
  {
    LocationIndoorIff(Value(" budova", None));
    LocationIndoorIff(Value("BUDOVA", None));
  }

  /** The lookup key of a missing cell: 'nan', lower-cased and trimmed, is still 'nan'. */
  lemma KeyOfMissing()
    ensures Strip(Lower(AsText(Missing))) == "nan"
  {
    var nan := "nan";
    assert nan[0] == 'n' && nan[1] == 'a' && nan[2] == 'n';
    assert Lower(nan) == nan by {
      assert forall k :: 0 <= k < 3 ==> Lower(nan)[k] == nan[k];
    }
    assert !IsSpace(nan[0]) && !IsSpace(nan[2]);
  }

  /**
    The lookup key `str(cell).lower().strip()` equals an ASCII lower-case word other
    than 'nan' exactly when the cell is present and its trimmed text spells that word
    up to letter case.
   */
  lemma KeyIsAsciiWord(c: Cell, w: string)
    requires AsciiLowerWord(w) && w != "nan"
    ensures Strip(Lower(AsText(c))) == w <==> c.Value? && SameIgnoringAsciiCase(Strip(c.text), w)
  {
    KeyOfMissing();
    StripLowerCommute(AsText(c));
    LowerEqualsAsciiWord(Strip(AsText(c)), w);
  }

  /* ---------- Who felt it: column 'Pocit_Kategorie_Text' ---------- */

  datatype FeltBy = OnlyRespondent | Majority | Unspecified {
    function Name(): string {
      match this
      case OnlyRespondent => "Pocítil(a) pouze respondent / někdo"
      case Majority => "Pocítila většina přítomných"
      case Unspecified => "Nezadáno/Jiná odpověď"
    }
  }

  /** `astype(str).str.lower().str.strip()` looked up in {'pouze vy', 'většina ano'}; anything else is unspecified. */
  function FeltByOf(c: Cell): FeltBy {
    var key := Strip(Lower(AsText(c)));
    if key == "pouze vy" then OnlyRespondent
    else if key == "většina ano" then Majority
    else Unspecified
  }

  /**
    The felt-by label in terms of the raw text: respondent-only iff the trimmed text
    is 'pouze vy' up to letter case, majority iff the trimmed text lower-cases to
    'většina ano'; a missing cell (text 'nan') is unspecified.
   */
  lemma FeltByIff(c: Cell)
    ensures FeltByOf(c) == OnlyRespondent <==> c.Value? && SameIgnoringAsciiCase(Strip(c.text), "pouze vy")
    ensures FeltByOf(c) == Majority <==> c.Value? && Lower(Strip(c.text)) == "většina ano"
    ensures c.Missing? ==> FeltByOf(c) == Unspecified
  {
    KeyIsAsciiWord(c, "pouze vy");
    var key := Strip(Lower(AsText(c)));
    if c.Missing? {
      KeyOfMissing();
      assert key == "nan";
    } else {
      StripLowerCommute(c.text);
      assert key == Lower(Strip(c.text));
    }
  }

  /** Surrounding whitespace does not change the felt-by label. */
  lemma FeltByIgnoresPadding(a: string, t: string, b: string, n: Option<real>, m: Option<real>)
    requires AllSpace(a) && AllSpace(b)
    ensures FeltByOf(Value(a + t + b, n)) == FeltByOf(Value(t, m))
  {
    LowerAppend(a + t, b);
    LowerAppend(a, t);
    LowerOfSpaces(a);
    LowerOfSpaces(b);
    StripPadding(a, Lower(t), b);
  }

  /** Letter case does not change the felt-by label. */
  lemma FeltByIgnoresCase(t: string, n: Option<real>, m: Option<real>)
    ensures FeltByOf(Value(t, n)) == FeltByOf(Value(Lower(t), m))
  {
    LowerIdempotent(t);
  }

  /* ---------- Tremor description: column 'Intenzita_Kat' ---------- */

  /**
    `astype(str).str.lower().fillna('Nezadáno')`: the lower-cased text. The
    `fillna` comes after `astype(str)`, which has already turned a missing cell
    into 'nan', so it never applies (see TremorNeverPlaceholder).
   */
  function TremorOf(c: Cell): string {
    Lower(AsText(c))
  }

  /** A missing tremor cell is labelled 'nan', and no cell is ever labelled 'Nezadáno'. */
  lemma {:induction false} TremorNeverPlaceholder(c: Cell)
    ensures c.Missing? ==> TremorOf(c) == "nan"
    ensures TremorOf(c) != "Nezadáno"
  {
    if c.Missing? {
      KeyOfMissing();
      assert Lower("nan") == "nan";
    }
    var tremor := TremorOf(c);
    if |tremor| > 0 {
      assert !IsAsciiUpper(tremor[0]);
      assert "Nezadáno"[0] == 'N';
    }
  }

  /** Tremor labels are already in lower case, and equal texts up to case share one label. */
  lemma TremorIsLowerCase(t: string, u: string, n: Option<real>, m: Option<real>)
    ensures Lower(TremorOf(Value(t, n))) == TremorOf(Value(t, n))
    ensures Lower(t) == Lower(u) ==> TremorOf(Value(t, n)) == TremorOf(Value(u, m))
  {
    LowerIdempotent(t);
  }

  /* ---------- Fear: column 'Strach_Pocit_Kat' ---------- */

  /** `pd.to_numeric(cell, errors='coerce') == 1`: NaN compares unequal, so missing or unparsable is False. */
  function FearOf(c: Cell): bool {
    Numeric(c) == Some(1.0)
  }

  /** The text the fear counts are reported under. */
  function FearName(fear: bool): string {
    if fear then "Ano (strach/panika)" else "Ne/Nezadáno"
  }

  /** Fear is reported iff the cell coerces to exactly the number 1. */
  lemma FearIff(c: Cell)
    ensures FearOf(c) <==> c.Value? && c.number.Some? && c.number.value == 1.0
    ensures c.Missing? || c.number.None? ==> !FearOf(c)
  {
  }

  /* ---------- Object movement: column 'Pohyb_Predmetu_Agregovany' ---------- */

  /** Python's `any(...)` of the movement test over one row's movement cells. */
  function AnyObserved(cells: seq<Cell>): (moved: bool)
    ensures moved <==> exists k :: 0 <= k < |cells| && Observed(cells[k])
  {
    if cells == [] then false
    else Observed(cells[|cells| - 1]) || AnyObserved(cells[..|cells| - 1])
  }

  /** Any non-blank answer counts as movement, '0' and 'ne' included; blanks do not. */
  lemma MovementCountsAnyAnswer(rest: seq<Cell>)
    ensures AnyObserved([Value("0", Some(0.0))] + rest)
    ensures AnyObserved([Value("ne", None)] + rest)
    ensures !AnyObserved([Missing, Value(" ", None)])
  {
    assert !IsSpace("0"[0]) && Observed(([Value("0", Some(0.0))] + rest)[0]);
    assert !IsSpace("ne"[0]) && Observed(([Value("ne", None)] + rest)[0]);
    assert !Observed(Value(" ", None)) by {
      assert AllSpace(" ");
    }
  }

  /* ---------- Building damage: column 'Poskozeni_Obecne_Kat' ---------- */

  datatype Damage = Reported | NotReported | Unknown {
    function Name(): string {
      match this
      case Reported => "Ano (poškození hlášeno)"
      case NotReported => "Ne (poškození nehlášeno)"
      case Unknown => "Nezadáno/Jiná hodnota"
    }
  }

  /** `astype(str).str.lower().str.strip()` looked up in {'bylo', 'nebylo'}; anything else is unknown. */
  function DamageOf(c: Cell): Damage {
    var key := Strip(Lower(AsText(c)));
    if key == "bylo" then Reported
    else if key == "nebylo" then NotReported
    else Unknown
  }

  /**
    Damage is reported iff the trimmed text is 'bylo' up to letter case, and not
    reported iff it is 'nebylo' up to letter case; a missing cell is unknown.
   */
  lemma DamageIff(c: Cell)
    ensures DamageOf(c) == Reported <==> c.Value? && SameIgnoringAsciiCase(Strip(c.text), "bylo")
    ensures DamageOf(c) == NotReported <==> c.Value? && SameIgnoringAsciiCase(Strip(c.text), "nebylo")
    ensures c.Missing? ==> DamageOf(c) == Unknown
  {
    DamageWords();
    var key := Strip(Lower(AsText(c)));
    assert DamageOf(c) == Reported <==> key == "bylo";
    assert DamageOf(c) == NotReported <==> key == "nebylo";
    KeyIsAsciiWord(c, "bylo");
    KeyIsAsciiWord(c, "nebylo");
  }

  /** The two damage answers are distinct ASCII lower-case words, neither of them 'nan'. */
  lemma DamageWords()
    ensures AsciiLowerWord("bylo") && AsciiLowerWord("nebylo")
    ensures "bylo" != "nan" && "nebylo" != "nan" && "bylo" != "nebylo"
  {
    assert |"bylo"| == 4 && |"nebylo"| == 6 && |"nan"| == 3;
  }

  /** Surrounding whitespace does not change the damage label. */
  lemma DamageIgnoresPadding(a: string, t: string, b: string, n: Option<real>, m: Option<real>)
    requires AllSpace(a) && AllSpace(b)
    ensures DamageOf(Value(a + t + b, n)) == DamageOf(Value(t, m))
  {
    LowerAppend(a + t, b);
    LowerAppend(a, t);
    LowerOfSpaces(a);
    LowerOfSpaces(b);
    StripPadding(a, Lower(t), b);
  }

  /* ---------- Report texts ---------- */

  /** Distinct categories are reported under distinct texts, so counting texts counts categories. */
  lemma NamesAreDistinct(l1: Location, l2: Location, f1: FeltBy, f2: FeltBy, d1: Damage, d2: Damage, b1: bool, b2: bool)
    ensures l1.Name() == l2.Name() ==> l1 == l2
    ensures f1.Name() == f2.Name() ==> f1 == f2
    ensures d1.Name() == d2.Name() ==> d1 == d2
    ensures FearName(b1) == FearName(b2) ==> b1 == b2
  {
  }

}
