/** The closed enumeration of genders offered by the questionnaire, with display titles. */
module Genders {
  import opened Outcomes
  import Text

  /** The members in declaration order. */
  datatype Gender =
    | Agender
    | Androgynous
    | Bigender
    | Demigirl
    | Demiguy
    | Feminine
    | Femme
    | Genderqueer
    | Genderfluid
    | Intersex
    | Man
    | Masculine
    | Neutrois
    | Nonbinary
    | Other
    | Pangender
    | ThirdGender
    | Woman

  /** Every member, in declaration order. */
  const AllGenders: seq<Gender> := [
    Agender, Androgynous, Bigender, Demigirl, Demiguy, Feminine,
    Femme, Genderqueer, Genderfluid, Intersex, Man, Masculine,
    Neutrois, Nonbinary, Other, Pangender, ThirdGender, Woman
  ]

  /** The Java constant name, which is also what `toString` and `valueOf` use. */
  function Name(g: Gender): (name: string) {
    match g
    case Agender => "AGENDER"
    case Androgynous => "ANDROGYNOUS"
    case Bigender => "BIGENDER"
    case Demigirl => "DEMIGIRL"
    case Demiguy => "DEMIGUY"
    case Feminine => "FEMININE"
    case Femme => "FEMME"
    case Genderqueer => "GENDERQUEER"
    case Genderfluid => "GENDERFLUID"
    case Intersex => "INTERSEX"
    case Man => "MAN"
    case Masculine => "MASCULINE"
    case Neutrois => "NEUTROIS"
    case Nonbinary => "NONBINARY"
    case Other => "OTHER"
    case Pangender => "PANGENDER"
    case ThirdGender => "THIRD_GENDER"
    case Woman => "WOMAN"
  }

  /** `getTitle`: the title passed to the constructor at declaration. */
  function Title(g: Gender): (title: string)
  {
    match g
    case Agender => "Agender"
    case Androgynous => "Androgynous"
    case Bigender => "Bigender"
    case Demigirl => "Demigirl"
    case Demiguy => "Demiguy"
    case Feminine => "Feminine"
    case Femme => "Femme"
    case Genderqueer => "Genderqueer"
    case Genderfluid => "Genderfluid"
    case Intersex => "Intersex"
    case Man => "Man"
    case Masculine => "Masculine"
    case Neutrois => "Neutrois"
    case Nonbinary => "Nonbinary"
    case Other => "Other"
    case Pangender => "Pangender"
    case ThirdGender => "Third Gender"
    case Woman => "Woman"
  }

  /** The name directory `valueOf` consults: each constant name mapped to its constant. */
  const ByName: map<string, Gender> := map[
    "AGENDER" := Agender, "ANDROGYNOUS" := Androgynous, "BIGENDER" := Bigender,
    "DEMIGIRL" := Demigirl, "DEMIGUY" := Demiguy, "FEMININE" := Feminine,
    "FEMME" := Femme, "GENDERQUEER" := Genderqueer, "GENDERFLUID" := Genderfluid,
    "INTERSEX" := Intersex, "MAN" := Man, "MASCULINE" := Masculine,
    "NEUTROIS" := Neutrois, "NONBINARY" := Nonbinary, "OTHER" := Other,
    "PANGENDER" := Pangender, "THIRD_GENDER" := ThirdGender, "WOMAN" := Woman]

  /** `Gender.valueOf`: exact, case-sensitive match on a constant name. */
  function FromName(s: string): (r: Option<Gender>)
    ensures r.Some? ==> Name(r.value) == s
    ensures r.None? ==> forall g :: Name(g) != s
  {
    if s in ByName then Some(ByName[s]) else None
  }

  /** Java's `ordinal()`: the position of the member in the declaration. */
  function Ordinal(g: Gender): (i: nat)
    ensures i < |AllGenders| && AllGenders[i] == g
  {
    match g
    case Agender => 0
    case Androgynous => 1
    case Bigender => 2
    case Demigirl => 3
    case Demiguy => 4
    case Feminine => 5
    case Femme => 6
    case Genderqueer => 7
    case Genderfluid => 8
    case Intersex => 9
    case Man => 10
    case Masculine => 11
    case Neutrois => 12
    case Nonbinary => 13
    case Other => 14
    case Pangender => 15
    case ThirdGender => 16
    case Woman => 17
  }

  /** There are exactly eighteen members, each listed once. */
  lemma AllGendersEnumerates()
    ensures |AllGenders| == 18
    ensures forall g :: g in AllGenders
    ensures forall i, j :: 0 <= i < j < |AllGenders| ==> AllGenders[i] != AllGenders[j]
  {
    forall g ensures g in AllGenders {
      assert AllGenders[Ordinal(g)] == g;
    }
  }

  /** No two members share a title, so a title identifies its member. */
  lemma TitleInjective(a: Gender, b: Gender)
    ensures Title(a) == Title(b) ==> a == b
  {
  }

  /** Name lookup inverts the name function and succeeds exactly on the eighteen names. */
  lemma FromNameInvertsName(g: Gender, s: string)
    ensures FromName(Name(g)) == Some(g)
    ensures FromName(s) == Some(g) <==> s == Name(g)
  {
  }

  /**
   * `OTHER` is a member, but there is no `UNSPECIFIED` member: looking that
   * name up fails.
   */
  lemma OtherButNoUnspecified()
    ensures FromName("OTHER") == Some(Other)
    ensures FromName("UNSPECIFIED") == None
  {
  }

  /**
   * Each title is its constant name with `_` turned into a space and every
   * word title-cased.
   */
  lemma TitleIsTitleCasedName(g: Gender)
    ensures Title(g) == Text.TitleCase(Name(g))
  {
    if Ordinal(g) < 3 {
      TitleIsTitleCasedNameFirst(g);
    } else if Ordinal(g) < 6 {
      TitleIsTitleCasedNameSecond(g);
    } else if Ordinal(g) < 9 {
      TitleIsTitleCasedNameThird(g);
    } else if Ordinal(g) < 12 {
      TitleIsTitleCasedNameFourth(g);
    } else if Ordinal(g) < 15 {
      TitleIsTitleCasedNameFifth(g);
    } else {
      TitleIsTitleCasedNameSixth(g);
    }
  }

  /** `TitleIsTitleCasedName` for the members `AGENDER` to `BIGENDER`. */
  lemma TitleIsTitleCasedNameFirst(g: Gender)
    requires Ordinal(g) < 3
    ensures Title(g) == Text.TitleCase(Name(g))
  {
  }

  /** `TitleIsTitleCasedName` for the members `DEMIGIRL` to `FEMININE`. */
  lemma TitleIsTitleCasedNameSecond(g: Gender)
    requires 3 <= Ordinal(g) < 6
    ensures Title(g) == Text.TitleCase(Name(g))
  {
  }

  /** `TitleIsTitleCasedName` for the members `FEMME` to `GENDERFLUID`. */
  lemma TitleIsTitleCasedNameThird(g: Gender)
    requires 6 <= Ordinal(g) < 9
    ensures Title(g) == Text.TitleCase(Name(g))
  {
  }

  /** `TitleIsTitleCasedName` for the members `INTERSEX` to `MASCULINE`. */
  lemma TitleIsTitleCasedNameFourth(g: Gender)
    requires 9 <= Ordinal(g) < 12
    ensures Title(g) == Text.TitleCase(Name(g))
  {
  }

  /** `TitleIsTitleCasedName` for the members `NEUTROIS` to `OTHER`. */
  lemma TitleIsTitleCasedNameFifth(g: Gender)
    requires 12 <= Ordinal(g) < 15
    ensures Title(g) == Text.TitleCase(Name(g))
  {
  }

  /** `TitleIsTitleCasedName` for the members `PANGENDER` to `WOMAN`. */
  lemma TitleIsTitleCasedNameSixth(g: Gender)
    requires 15 <= Ordinal(g) < 18
    ensures Title(g) == Text.TitleCase(Name(g))
  {
  }
}
