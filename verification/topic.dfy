/** The closed enumeration of study topics, with display titles. */
module Topics {
  import opened Outcomes
  import Text

  /** The members in declaration order. */
  datatype Topic =
    | ComputerScience
    | Physics
    | Art
    | Medicine
    | Music
    | Math
    | Language
    | Biology
    | Other

  /** Every member, in declaration order. */
  const AllTopics: seq<Topic> :=
    [ComputerScience, Physics, Art, Medicine, Music, Math, Language, Biology, Other]

  /** The Java constant name, which is also what `toString` and `valueOf` use. */
  function Name(t: Topic): (n: string)
    ensures n != [] && Text.NoSeparator(n)
  {
    match t
    case ComputerScience => "COMPUTER_SCIENCE"
    case Physics => "PHYSICS"
    case Art => "ART"
    case Medicine => "MEDICINE"
    case Music => "MUSIC"
    case Math => "MATH"
    case Language => "LANGUAGE"
    case Biology => "BIOLOGY"
    case Other => "OTHER"
  }

  /** `getTitle`: the title passed to the constructor at declaration. */
  function Title(t: Topic): (title: string)
  {
    match t
    case ComputerScience => "Computer Science"
    case Physics => "Physics"
    case Art => "Art"
    case Medicine => "Medicine"
    case Music => "Music"
    case Math => "Math"
    case Language => "Language"
    case Biology => "Biology"
    case Other => "Other"
  }

  /** The constant names of `ts`, in order. */
  function Names(ts: seq<Topic>): (ns: seq<string>)
    ensures |ns| == |ts|
    ensures forall i :: 0 <= i < |ts| ==> ns[i] == Name(ts[i])
  {
    if ts == [] then [] else [Name(ts[0])] + Names(ts[1..])
  }

  /** The name directory `valueOf` consults: each constant name mapped to its constant. */
  const ByName: map<string, Topic> := map[
    "COMPUTER_SCIENCE" := ComputerScience, "PHYSICS" := Physics, "ART" := Art,
    "MEDICINE" := Medicine, "MUSIC" := Music, "MATH" := Math, "LANGUAGE" := Language,
    "BIOLOGY" := Biology, "OTHER" := Other]

  /** `Topic.valueOf`: exact, case-sensitive match on a constant name. */
  function FromName(s: string): (r: Option<Topic>)
    ensures r.Some? ==> Name(r.value) == s
    ensures r.None? ==> forall t :: Name(t) != s
  {
    if s in ByName then Some(ByName[s]) else None
  }

  /** Java's `ordinal()`: the position of the member in the declaration. */
  function Ordinal(t: Topic): (i: nat)
    ensures i < |AllTopics| && AllTopics[i] == t
  {
    match t
    case ComputerScience => 0
    case Physics => 1
    case Art => 2
    case Medicine => 3
    case Music => 4
    case Math => 5
    case Language => 6
    case Biology => 7
    case Other => 8
  }

  /** There are exactly nine members, each listed once. */
  lemma AllTopicsEnumerates()
    ensures |AllTopics| == 9
    ensures forall t :: t in AllTopics
    ensures forall i, j :: 0 <= i < j < |AllTopics| ==> AllTopics[i] != AllTopics[j]
  {
    forall t ensures t in AllTopics {
      assert AllTopics[Ordinal(t)] == t;
    }
  }

  /** No two members share a title, so a title identifies its member. */
  lemma TitleInjective(a: Topic, b: Topic)
    ensures Title(a) == Title(b) ==> a == b
  {
  }

  /** Name lookup inverts the name function and succeeds exactly on the nine names. */
  lemma FromNameInvertsName(t: Topic, s: string)
    ensures FromName(Name(t)) == Some(t)
    ensures FromName(s) == Some(t) <==> s == Name(t)
  {
  }

  /** The servlet's default goal and focus entry is a member titled "Other". */
  lemma OtherIsMember()
    ensures FromName("OTHER") == Some(Other)
    ensures Title(Other) == "Other"
  {
  }

  /**
   * Each title is its constant name with `_` turned into a space and every
   * word title-cased.
   */
  lemma TitleIsTitleCasedName(t: Topic)
    ensures Title(t) == Text.TitleCase(Name(t))
  {
    if Ordinal(t) < 3 {
      TitleIsTitleCasedNameFirst(t);
    } else if Ordinal(t) < 6 {
      TitleIsTitleCasedNameSecond(t);
    } else {
      TitleIsTitleCasedNameThird(t);
    }
  }

  /** `TitleIsTitleCasedName` for the members `COMPUTER_SCIENCE` to `ART`. */
  lemma TitleIsTitleCasedNameFirst(t: Topic)
    requires Ordinal(t) < 3
    ensures Title(t) == Text.TitleCase(Name(t))
  {
  }

  /** `TitleIsTitleCasedName` for the members `MEDICINE` to `MATH`. */
  lemma TitleIsTitleCasedNameSecond(t: Topic)
    requires 3 <= Ordinal(t) < 6
    ensures Title(t) == Text.TitleCase(Name(t))
  {
  }

  /** `TitleIsTitleCasedName` for the members `LANGUAGE` to `OTHER`. */
  lemma TitleIsTitleCasedNameThird(t: Topic)
    requires 6 <= Ordinal(t) < 9
    ensures Title(t) == Text.TitleCase(Name(t))
  {
  }
}
