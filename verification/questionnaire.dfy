/**
 * The questionnaire servlet: which requests get the sign-up form, how a
 * submitted form becomes a new mentee or mentor account, and where the
 * browser is sent afterwards.
 */
module Questionnaire {
  import opened Outcomes
  import Text
  import Topics
  import Genders

  /** The request parameters the servlet reads. */
  datatype Param =
    | FormType
    | Name
    | DateOfBirth
    | Country
    | Timezone
    | Language
    | Ethnicity
    | EthnicityOther
    | Gender
    | GenderOther
    | EducationLevel
    | EducationLevelOther
    | FirstGen
    | LowIncome
    | MentorType
    | Description
    | DesiredMeetingFrequency
    | Goal
    | FocusList

  /** The parameters of one HTTP request, by name. */
  type Request = map<Param, string>

  /** The value of `p`, or `default` when the request does not carry it. */
  function GetParameter(req: Request, p: Param, default: string): (v: string)
    ensures p in req ==> v == req[p]
    ensures p !in req ==> v == default
  {
    if p in req then req[p] else default
  }

  /** A Java enum constant name: non-empty, without commas or spaces. */
  predicate IsConstantName(s: string) {
    s != [] && forall i :: 0 <= i < |s| ==> s[i] != ',' && s[i] != ' '
  }

  predicate AllConstantNames(names: set<string>) {
    forall n :: n in names ==> IsConstantName(n)
  }

  /**
   * The constant names of the enumerations whose declarations this model does
   * not include. Each is known only by its set of names; a value of such an
   * enumeration is represented by its name.
   */
  datatype EnumNames = EnumNames(
    userTypes: set<string>,
    countries: set<string>,
    languages: set<string>,
    ethnicities: set<string>,
    educationLevels: set<string>,
    mentorTypes: set<string>,
    meetingFrequencies: set<string>)
  {
    /**
     * Every name is a constant name, and the constants the servlet refers to
     * by name in its code (`UserType.MENTEE`, `Country.US`, `Language.EN`,
     * `Ethnicity.OTHER`, `EducationLevel.OTHER`, `MentorType.TUTOR`,
     * `MeetingFrequency.WEEKLY`) exist.
     */
    predicate WellFormed() {
      && AllConstantNames(userTypes) && "MENTEE" in userTypes
      && AllConstantNames(countries) && "US" in countries
      && AllConstantNames(languages) && "EN" in languages
      && AllConstantNames(ethnicities) && "OTHER" in ethnicities
      && AllConstantNames(educationLevels) && "OTHER" in educationLevels
      && AllConstantNames(mentorTypes) && "TUTOR" in mentorTypes
      && AllConstantNames(meetingFrequencies) && "WEEKLY" in meetingFrequencies
    }
  }

  type Catalogue = c: EnumNames | c.WellFormed()
    witness EnumNames({"MENTEE"}, {"US"}, {"EN"}, {"OTHER"}, {"OTHER"}, {"TUTOR"}, {"WEEKLY"})

  /** An instant, as the date library represents it; its structure does not matter here. */
  datatype Date = Date(epochMillis: int)

  /**
   * What the servlet obtains from outside the request: the signed-in user's
   * id and e-mail, the clock, and the `yyyy-MM-dd` date parser (`None` when
   * it throws).
   */
  datatype Env = Env(userId: string, email: string, now: Date, parseDate: string -> Option<Date>)

  /** The fields every account has. */
  datatype Account = Account(
    name: string,
    userId: string,
    email: string,
    userType: string,
    dateOfBirth: Date,
    country: string,
    language: string,
    timezoneId: string,
    ethnicities: seq<string>,
    ethnicityOther: string,
    gender: Genders.Gender,
    genderOther: string,
    firstGen: bool,
    lowIncome: bool,
    educationLevel: string,
    educationLevelOther: string,
    description: string)

  /** The two kinds of account a form submission can create. */
  datatype User =
    | Mentee(account: Account, goal: Topics.Topic, desiredMeetingFrequency: string,
             desiredMentorType: string)
    | Mentor(account: Account, mentorType: string, visibility: bool, focusList: seq<Topics.Topic>)

  /** `valueOf` threw `IllegalArgumentException`: `name`, read for `param`, is no constant. */
  datatype Error = UnknownConstant(param: Param, name: string)

  /**
   * `got` is the longest prefix of `tokens` whose every token names a
   * constant of `directory`, each replaced by that constant.
   */
  ghost predicate IsLongestValidPrefix<T>(got: seq<T>, tokens: seq<string>, directory: map<string, T>) {
    && |got| <= |tokens|
    && (forall i :: 0 <= i < |got| ==> tokens[i] in directory && directory[tokens[i]] == got[i])
    && (|got| == |tokens| || tokens[|got|] !in directory)
  }

  /**
   * The loop that converts split tokens one by one with `valueOf` (a lookup
   * in the enumeration's name directory) and stops, keeping what it has, at
   * the first token that names no constant.
   */
  function ValidPrefix<T>(tokens: seq<string>, directory: map<string, T>): (r: seq<T>)
    ensures IsLongestValidPrefix(r, tokens, directory)
    decreases |tokens|
  {
    if tokens == [] || tokens[0] !in directory then []
    else
      var rest := ValidPrefix(tokens[1..], directory);
      assert forall i :: 0 < i <= |rest| ==> tokens[i] == tokens[1..][i - 1];
      [directory[tokens[0]]] + rest
  }

  /** The longest valid prefix is determined by the tokens and the directory. */
  lemma LongestValidPrefixUnique<T>(a: seq<T>, b: seq<T>, tokens: seq<string>, directory: map<string, T>)
    requires IsLongestValidPrefix(a, tokens, directory)
    requires IsLongestValidPrefix(b, tokens, directory)
    ensures a == b
  {
    if |a| == |b| {
      forall i | 0 <= i < |a| ensures a[i] == b[i] {
        assert a[i] == directory[tokens[i]] == b[i];
      }
    }
  }

  /** The name directory of an enumeration known only by its names. */
  function Directory(names: set<string>): (d: map<string, string>)
    ensures d.Keys == names
    ensures forall n :: n in d ==> d[n] == n
  {
    map n | n in names :: n
  }

  /**
   * `valueOf` for a parameter's value (or `default` when the request leaves
   * it out), failing the whole construction on an unknown name.
   */
  function ReadConstant(req: Request, names: set<string>, p: Param, default: string)
    : (r: Result<string, Error>)
    ensures r.Success? <==> GetParameter(req, p, default) in names
    ensures r.Success? ==> r.value == GetParameter(req, p, default)
    ensures r.Failure? ==> r.error == UnknownConstant(p, GetParameter(req, p, default))
  {
    var s := GetParameter(req, p, default);
    if s in names then Success(s) else Failure(UnknownConstant(p, s))
  }

  /** The tokens of a `", "`-separated list parameter, read with its default. */
  function ListTokens(req: Request, p: Param, default: string): (tokens: seq<string>) {
    Text.JavaSplit(GetParameter(req, p, default))
  }

  /**
   * `got` is the longest prefix of `tokens` made of names in `names`: the
   * special case of `IsLongestValidPrefix` for enumerations known by name.
   */
  ghost predicate IsLongestKnownPrefix(got: seq<string>, tokens: seq<string>, names: set<string>) {
    && got <= tokens
    && (forall i :: 0 <= i < |got| ==> got[i] in names)
    && (|got| == |tokens| || tokens[|got|] !in names)
  }

  /** The ethnicities of a submission: the longest prefix of the list that names members. */
  function ParseEthnicities(req: Request, cat: Catalogue): (r: seq<string>)
    ensures IsLongestKnownPrefix(r, ListTokens(req, Ethnicity, "UNSPECIFIED"), cat.ethnicities)
  {
    var tokens := ListTokens(req, Ethnicity, "UNSPECIFIED");
    var r := ValidPrefix(tokens, Directory(cat.ethnicities));
    assert forall i :: 0 <= i < |r| ==> r[i] == tokens[i];
    r
  }

  /** A mentor's focus topics: the longest prefix of the list that names topics. */
  function ParseFocusList(req: Request): (r: seq<Topics.Topic>)
    ensures IsLongestValidPrefix(r, ListTokens(req, FocusList, "OTHER"), Topics.ByName)
    ensures FocusList !in req ==> r == [Topics.Other]
  {
    var tokens := ListTokens(req, FocusList, "OTHER");
    if FocusList !in req then
      assert GetParameter(req, FocusList, "OTHER") == Topics.Name(Topics.Other);
      assert tokens == ["OTHER"];
      assert tokens[1..] == [];
      ValidPrefix(tokens, Topics.ByName)
    else
      ValidPrefix(tokens, Topics.ByName)
  }

  /**
   * A yes/no answer: `Boolean.parseBoolean` of the submitted value, so true
   * only for "true" in some letter case, and false when the answer is missing.
   */
  function ReadFlag(req: Request, p: Param): (b: bool)
    ensures b <==> p in req && Text.ParseBoolean(req[p])
  {
    assert !Text.ParseBoolean("false");
    Text.ParseBoolean(GetParameter(req, p, "false"))
  }

  /**
   * The free-text companion `p` of an answer that offers "other": read only
   * when `chosen` says the answer is the `OTHER` constant, and empty otherwise
   * or when the request leaves it out.
   */
  function ReadOtherText(req: Request, p: Param, chosen: bool): (s: string)
    ensures !chosen ==> s == ""
    ensures chosen && p in req ==> s == req[p]
    ensures p !in req ==> s == ""
  {
    if chosen then GetParameter(req, p, "") else ""
  }

  /** The date of birth: the parsed date, or the current instant when parsing fails. */
  function ReadDateOfBirth(req: Request, env: Env): (d: Date)
    ensures env.parseDate(GetParameter(req, DateOfBirth, "2000-01-01")) == Some(d)
         || (env.parseDate(GetParameter(req, DateOfBirth, "2000-01-01")) == None && d == env.now)
  {
    match env.parseDate(GetParameter(req, DateOfBirth, "2000-01-01"))
    case Some(d) => d
    case None => env.now
  }

  /** The constants named by the answers every submission has, by their names. */
  datatype Constants = Constants(
    userType: string,
    country: string,
    language: string,
    gender: Genders.Gender,
    educationLevel: string,
    mentorType: string)

  /**
   * Whether every constant every submission names exists: the user type,
   * country, language, gender, education level and mentor type, each read
   * with its default.
   */
  predicate CommonConstantsKnown(req: Request, cat: Catalogue) {
    && GetParameter(req, FormType, "MENTEE") in cat.userTypes
    && GetParameter(req, Country, "US") in cat.countries
    && GetParameter(req, Language, "EN") in cat.languages
    && Genders.FromName(GetParameter(req, Gender, "UNSPECIFIED")).Some?
    && GetParameter(req, EducationLevel, "UNSPECIFIED") in cat.educationLevels
    && GetParameter(req, MentorType, "TUTOR") in cat.mentorTypes
  }

  /** Each constant in `c` is the one the request names (or its default names). */
  predicate ConstantsAsNamed(c: Constants, req: Request) {
    && c.userType == GetParameter(req, FormType, "MENTEE")
    && c.country == GetParameter(req, Country, "US")
    && c.language == GetParameter(req, Language, "EN")
    && Genders.Name(c.gender) == GetParameter(req, Gender, "UNSPECIFIED")
    && c.educationLevel == GetParameter(req, EducationLevel, "UNSPECIFIED")
    && c.mentorType == GetParameter(req, MentorType, "TUTOR")
  }

  /**
   * The `valueOf` calls every submission goes through, in the order the
   * servlet makes them; the first unknown name aborts construction.
   */
  function ReadConstants(req: Request, cat: Catalogue): (r: Result<Constants, Error>)
    ensures r.Success? <==> CommonConstantsKnown(req, cat)
    ensures r.Success? ==> ConstantsAsNamed(r.value, req)
    ensures r.Failure? && r.error.param in req ==> r.error.name == req[r.error.param]
    ensures Gender !in req ==> r.Failure?
  {
    var userType :- ReadConstant(req, cat.userTypes, FormType, "MENTEE");
    var country :- ReadConstant(req, cat.countries, Country, "US");
    var language :- ReadConstant(req, cat.languages, Language, "EN");
    var genderName := GetParameter(req, Gender, "UNSPECIFIED");
    match Genders.FromName(genderName)
    case None => Failure(UnknownConstant(Gender, genderName))
    case Some(gender) =>
      var educationLevel :- ReadConstant(req, cat.educationLevels, EducationLevel, "UNSPECIFIED");
      var mentorType :- ReadConstant(req, cat.mentorTypes, MentorType, "TUTOR");
      Success(Constants(userType, country, language, gender, educationLevel, mentorType))
  }

  /**
   * How the account a submission creates relates to the request: constants
   * as named, free text and flags as submitted, every "other" text present
   * only alongside an `OTHER` answer, and the ethnicities the longest known
   * prefix of the submitted list.
   */
  ghost predicate AccountReflects(a: Account, req: Request, cat: Catalogue, env: Env) {
    && a.userType == GetParameter(req, FormType, "MENTEE")
    && a.name == GetParameter(req, Name, "John Doe")
    && a.userId == env.userId && a.email == env.email
    && (env.parseDate(GetParameter(req, DateOfBirth, "2000-01-01")) == Some(a.dateOfBirth)
        || (env.parseDate(GetParameter(req, DateOfBirth, "2000-01-01")) == None && a.dateOfBirth == env.now))
    && a.country == GetParameter(req, Country, "US")
    && a.language == GetParameter(req, Language, "EN")
    && a.timezoneId == GetParameter(req, Timezone, "est")
    && IsLongestKnownPrefix(a.ethnicities, ListTokens(req, Ethnicity, "UNSPECIFIED"), cat.ethnicities)
    && ("OTHER" !in a.ethnicities ==> a.ethnicityOther == "")
    && ("OTHER" in a.ethnicities ==> a.ethnicityOther == GetParameter(req, EthnicityOther, ""))
    && Genders.Name(a.gender) == GetParameter(req, Gender, "UNSPECIFIED")
    && (a.gender != Genders.Other ==> a.genderOther == "")
    && (a.gender == Genders.Other ==> a.genderOther == GetParameter(req, GenderOther, ""))
    && a.educationLevel == GetParameter(req, EducationLevel, "UNSPECIFIED")
    && (a.educationLevel != "OTHER" ==> a.educationLevelOther == "")
    && (a.educationLevel == "OTHER" ==>
          a.educationLevelOther == GetParameter(req, EducationLevelOther, ""))
    && (a.firstGen <==> FirstGen in req && Text.ParseBoolean(req[FirstGen]))
    && (a.lowIncome <==> LowIncome in req && Text.ParseBoolean(req[LowIncome]))
    && a.description == GetParameter(req, Description, "")
  }

  /**
   * The builder calls shared by both kinds of account, given the constants
   * the submission names and the ethnicities parsed from it.
   */
  function BuildAccount(req: Request, cat: Catalogue, env: Env, c: Constants, ethnicities: seq<string>)
    : (a: Account)
    requires ConstantsAsNamed(c, req)
    requires IsLongestKnownPrefix(ethnicities, ListTokens(req, Ethnicity, "UNSPECIFIED"), cat.ethnicities)
    ensures AccountReflects(a, req, cat, env)
  {
    Account(
      name := GetParameter(req, Name, "John Doe"),
      userId := env.userId,
      email := env.email,
      userType := c.userType,
      dateOfBirth := ReadDateOfBirth(req, env),
      country := c.country,
      language := c.language,
      timezoneId := GetParameter(req, Timezone, "est"),
      ethnicities := ethnicities,
      ethnicityOther := ReadOtherText(req, EthnicityOther, |ethnicities| > 0 && "OTHER" in ethnicities),
      gender := c.gender,
      genderOther := ReadOtherText(req, GenderOther, c.gender == Genders.Other),
      firstGen := ReadFlag(req, FirstGen),
      lowIncome := ReadFlag(req, LowIncome),
      educationLevel := c.educationLevel,
      educationLevelOther := ReadOtherText(req, EducationLevelOther, c.educationLevel == "OTHER"),
      description := GetParameter(req, Description, ""))
  }

  /**
   * The mentee half of `constructNewUserFromRequest`: the desired meeting
   * frequency and the goal must name constants; the desired mentor type is
   * the mentor type already read.
   */
  function BuildMentee(req: Request, cat: Catalogue, account: Account, mentorType: string)
    : (r: Result<User, Error>)
    ensures r.Success? <==>
      && GetParameter(req, DesiredMeetingFrequency, "WEEKLY") in cat.meetingFrequencies
      && Topics.FromName(GetParameter(req, Goal, "OTHER")).Some?
    ensures r.Failure? ==> r.error.param in {DesiredMeetingFrequency, Goal}
    ensures r.Failure? && r.error.param in req ==> r.error.name == req[r.error.param]
    ensures r.Success? ==>
      && r.value.Mentee?
      && r.value.account == account
      && Topics.Name(r.value.goal) == GetParameter(req, Goal, "OTHER")
      && r.value.desiredMeetingFrequency == GetParameter(req, DesiredMeetingFrequency, "WEEKLY")
      && r.value.desiredMentorType == mentorType
  {
    var frequency :- ReadConstant(req, cat.meetingFrequencies, DesiredMeetingFrequency, "WEEKLY");
    var goalName := GetParameter(req, Goal, "OTHER");
    match Topics.FromName(goalName)
    case None => Failure(UnknownConstant(Goal, goalName))
    case Some(goal) => Success(Mentee(account, goal, frequency, mentorType))
  }

  /**
   * Whether every constant a submission names exists; for a mentee this also
   * covers the meeting frequency and the goal.
   */
  predicate ConstantsKnown(req: Request, cat: Catalogue) {
    && CommonConstantsKnown(req, cat)
    && (GetParameter(req, FormType, "MENTEE") == "MENTEE" ==>
          && GetParameter(req, DesiredMeetingFrequency, "WEEKLY") in cat.meetingFrequencies
          && Topics.FromName(GetParameter(req, Goal, "OTHER")).Some?)
  }

  /**
   * `constructNewUserFromRequest`: a mentee when the user type is `MENTEE`,
   * a visible mentor otherwise; it fails exactly when some answer names no
   * constant, which includes every submission without a gender.
   */
  function ConstructUser(req: Request, cat: Catalogue, env: Env): (r: Result<User, Error>)
    ensures r.Success? <==> ConstantsKnown(req, cat)
    ensures Gender !in req ==> r.Failure?
    ensures r.Failure? && r.error.param in req ==> r.error.name == req[r.error.param]
    ensures r.Success? ==> AccountReflects(r.value.account, req, cat, env)
    ensures r.Success? ==> (r.value.Mentee? <==> r.value.account.userType == "MENTEE")
    ensures r.Success? && r.value.Mentee? ==>
      && Topics.Name(r.value.goal) == GetParameter(req, Goal, "OTHER")
      && (Goal !in req ==> r.value.goal == Topics.Other)
      && r.value.desiredMeetingFrequency == GetParameter(req, DesiredMeetingFrequency, "WEEKLY")
      && (DesiredMeetingFrequency !in req ==> r.value.desiredMeetingFrequency == "WEEKLY")
      && r.value.desiredMentorType == GetParameter(req, MentorType, "TUTOR")
    ensures r.Success? && r.value.Mentor? ==>
      && r.value.visibility
      && r.value.mentorType == GetParameter(req, MentorType, "TUTOR")
      && IsLongestValidPrefix(r.value.focusList, ListTokens(req, FocusList, "OTHER"), Topics.ByName)
      && (FocusList !in req ==> r.value.focusList == [Topics.Other])
  {
    var c :- ReadConstants(req, cat);
    var account := BuildAccount(req, cat, env, c, ParseEthnicities(req, cat));
    if c.userType == "MENTEE" then
      var r := BuildMentee(req, cat, account, c.mentorType);
      assert r.Success? && Goal !in req ==> r.value.goal == Topics.Other by {
        if r.Success? && Goal !in req {
          Topics.FromNameInvertsName(r.value.goal, "OTHER");
        }
      }
      r
    else
      Success(Mentor(account, c.mentorType, true, ParseFocusList(req)))
  }

  /** The pages the servlet sends the browser to. */
  datatype Page = Landing | FindMentor | Profile

  /** What a GET request produces. */
  datatype GetOutcome =
    | ServerError
    | ShowForm(formType: string)
    | Redirect(page: Page)

  /**
   * `doGet`: status 500 when the template could not be loaded; otherwise the
   * form, for the lower-cased form type, when that is "mentor" or "mentee",
   * and a redirect to the landing page for anything else or nothing.
   */
  function HandleGet(templateLoaded: bool, req: Request): (r: GetOutcome)
    ensures !templateLoaded <==> r == ServerError
    ensures templateLoaded ==>
      (r.ShowForm? <==> Text.Lower(GetParameter(req, FormType, "")) in {"mentor", "mentee"})
    ensures r.ShowForm? ==> r.formType in {"mentor", "mentee"}
    ensures r.ShowForm? ==> FormType in req && Text.Lower(req[FormType]) == r.formType
    ensures templateLoaded && !r.ShowForm? ==> r == Redirect(Landing)
    ensures templateLoaded ==>
      (r.ShowForm? <==> FormType in req && (Text.SpellsIgnoringCase(req[FormType], "mentor")
                                            || Text.SpellsIgnoringCase(req[FormType], "mentee")))
  {
    if !templateLoaded then ServerError
    else
      var formType := Text.Lower(GetParameter(req, FormType, ""));
      Text.LowerIsWordIff(GetParameter(req, FormType, ""), "mentor");
      Text.LowerIsWordIff(GetParameter(req, FormType, ""), "mentee");
      if formType == "mentor" || formType == "mentee" then ShowForm(formType)
      else Redirect(Landing)
  }

  /** The account a POST request creates and the page it redirects to. */
  datatype PostOutcome = PostOutcome(user: User, redirect: Page)

  /**
   * `doPost`: builds the account (an unknown constant aborts the request) and
   * sends a mentee to the mentor search and everyone else to the profile page.
   */
  function HandlePost(req: Request, cat: Catalogue, env: Env): (r: Result<PostOutcome, Error>)
    ensures r.Success? <==> ConstantsKnown(req, cat)
    ensures r.Success? ==> AccountReflects(r.value.user.account, req, cat, env)
    ensures r.Success? ==> (r.value.redirect == FindMentor <==> r.value.user.Mentee?)
    ensures r.Success? ==> (r.value.redirect == FindMentor <==> GetParameter(req, FormType, "MENTEE") == "MENTEE")
    ensures r.Success? ==> r.value.redirect in {FindMentor, Profile}
  {
    var user :- ConstructUser(req, cat, env);
    if user.account.userType == "MENTEE" then Success(PostOutcome(user, FindMentor))
    else Success(PostOutcome(user, Profile))
  }

  /**
   * The form type the GET handler passes to the form is lower-case, while the
   * POST handler's mentee test compares the raw value with `MENTEE`: a
   * submission that carries the form type as the GET handler lower-cased it
   * never creates a mentee.
   */
  lemma ShownFormTypeNeverMakesMentee(getReq: Request, postReq: Request, cat: Catalogue, env: Env)
    requires HandleGet(true, getReq).ShowForm?
    requires FormType in postReq && postReq[FormType] == HandleGet(true, getReq).formType
    requires ConstructUser(postReq, cat, env).Success?
    ensures ConstructUser(postReq, cat, env).value.Mentor?
    ensures HandlePost(postReq, cat, env).value.redirect == Profile
  {
  }

  /**
   * When the user types are upper-case only, a submission that carries the
   * form type as the GET handler lower-cased it fails: `UserType.valueOf`
   * knows no "mentor" or "mentee".
   */
  lemma ShownFormTypeFailsUpperCaseUserTypes(req: Request, cat: Catalogue, env: Env)
    requires "mentor" !in cat.userTypes && "mentee" !in cat.userTypes
    requires FormType in req && (req[FormType] == "mentor" || req[FormType] == "mentee")
    ensures ConstructUser(req, cat, env).Failure?
    ensures HandlePost(req, cat, env).Failure?
  {
  }

  /** A constant name contains no separator, so lists of them survive the join. */
  lemma ConstantNameHasNoSeparator(n: string)
    requires IsConstantName(n)
    ensures Text.NoSeparator(n)
  {
  }

  /**
   * The ethnicities the page's script joins into the form field come back
   * unchanged from the servlet's parsing.
   */
  lemma {:induction false} EthnicitiesRoundTrip(req: Request, cat: Catalogue, env: Env, checked: seq<string>)
    requires forall i :: 0 <= i < |checked| ==> checked[i] in cat.ethnicities
    requires Ethnicity in req && req[Ethnicity] == Text.Join(checked)
    requires ConstructUser(req, cat, env).Success?
    ensures ConstructUser(req, cat, env).value.account.ethnicities == checked
  {
    var got := ConstructUser(req, cat, env).value.account.ethnicities;
    if checked == [] {
      assert ListTokens(req, Ethnicity, "UNSPECIFIED") == [""];
      assert "" !in cat.ethnicities;
    } else {
      forall i | 0 <= i < |checked| ensures Text.NoSeparator(checked[i]) {
        ConstantNameHasNoSeparator(checked[i]);
      }
      Text.SplitJoinRoundTrip(checked);
      assert ListTokens(req, Ethnicity, "UNSPECIFIED") == checked;
      assert IsLongestKnownPrefix(got, checked, cat.ethnicities);
    }
  }

  /**
   * The focus topics the page's script joins into the form field come back
   * unchanged from the servlet's parsing.
   */
  lemma FocusListRoundTrip(req: Request, cat: Catalogue, env: Env, topics: seq<Topics.Topic>)
    requires FocusList in req && req[FocusList] == Text.Join(Topics.Names(topics))
    requires ConstructUser(req, cat, env).Success?
    requires ConstructUser(req, cat, env).value.Mentor?
    ensures ConstructUser(req, cat, env).value.focusList == topics
  {
    JoinedTopicsParseBack(req, topics, ConstructUser(req, cat, env).value.focusList);
  }

  /** The one longest valid prefix of the split of joined topic names is those topics. */
  lemma {:induction false} JoinedTopicsParseBack(req: Request, topics: seq<Topics.Topic>, got: seq<Topics.Topic>)
    requires FocusList in req && req[FocusList] == Text.Join(Topics.Names(topics))
    requires IsLongestValidPrefix(got, ListTokens(req, FocusList, "OTHER"), Topics.ByName)
    ensures got == topics
  {
    var names := Topics.Names(topics);
    if topics == [] {
      assert ListTokens(req, FocusList, "OTHER") == [""];
      assert "" !in Topics.ByName;
    } else {
      Text.SplitJoinRoundTrip(names);
      assert ListTokens(req, FocusList, "OTHER") == names;
      assert IsLongestValidPrefix(topics, names, Topics.ByName) by {
        forall i | 0 <= i < |topics| ensures names[i] in Topics.ByName && Topics.ByName[names[i]] == topics[i] {
          Topics.FromNameInvertsName(topics[i], names[i]);
        }
      }
      LongestValidPrefixUnique(got, topics, names, Topics.ByName);
    }
  }
}
