# Mentor-matching sign-up, login state and request lifecycle in Dafny

This project models the input-handling core of a web application that matches
mentees with mentors, and proves properties of the model:

- **Questionnaire servlet.** A submitted sign-up form becomes a new mentee or
  mentor account, or fails on an unknown enum name. Every answer has a
  default. The ethnicity and focus-topic lists are split on `", "`, and
  parsing keeps the longest prefix of valid names. An "other" free-text
  answer is kept only next to an `OTHER` choice. The GET handler decides
  whether to show the form, and the POST handler decides where to redirect.
- **Questionnaire page script.** The checked boxes of a list question are
  appended to a text field, joined by `", "`. The page shows the free-text
  input when an answer is "other". This encoding round-trips through the
  servlet's `split(", ")`.
- **The `Topic` and `Gender` enumerations.** Each has its members, constant
  names, display titles and `valueOf` lookup.
- **Authentication servlet.** It chooses the page a visitor returns to. It
  decides whether that page needs a login. It builds the login or logout
  link and the profile link.
- **Data-access request lifecycle.** A request is published, then approved
  (the request is deleted and a connection is created) or denied (the
  request is deleted).

Modules, one per file:

- `Outcomes` holds `Option` and `Result`.
- `Text` holds ASCII case folding, `Boolean.parseBoolean`, Java's
  `String.split(", ")` and the script's `", "` join.
- `Topics` and `Genders` hold the two enumerations.
- `Checkbox` models `questionnaire.js`.
- `Questionnaire` models `QuestionnaireServlet`.
- `Authenticate` models `AuthenticateServlet`.
- `RequestStore` models the request part of `DataAccess`.

Collaborators whose code is not part of this model become parameters:

- A request is a map from parameter to value. A missing key is
  `getParameter` returning its default.
- The signed-in user's id and e-mail, the clock and the `yyyy-MM-dd` date
  parser are fields of `Questionnaire.Env`.
- The URL decoder's outcome and `createLoginURL` are functions passed to
  `Authenticate.HandleAuthenticate`.
- The public-page set is a parameter.
- The URL paths and parameter names are the `Authenticate.Routes` record.

The enums `UserType`, `Country`, `Language`, `Ethnicity`, `EducationLevel`,
`MentorType` and `MeetingFrequency` are not part of this model. Each is known
only by its set of constant names (`Questionnaire.Catalogue`). The model
makes these assumptions about them:

- The members the servlet names in its code exist: `MENTEE`, `US`, `EN`,
  `OTHER` (ethnicity and education level), `TUTOR` and `WEEKLY`.
- `toString()` of `Country.US`, `Language.EN`, `MentorType.TUTOR` and
  `MeetingFrequency.WEEKLY` is the constant name. The servlet passes these
  as the defaults of their parameters, and the model writes them as the
  strings "US", "EN", "TUTOR" and "WEEKLY". An enum that overrides
  `toString()` would make a missing parameter fail where the model succeeds.
- Constant names are non-empty and contain no comma or space.

## Model

| member | source | states |
|---|---|---|
| Text.Lower | src/main/java/com/google/sps/servlets/QuestionnaireServlet.java:126-127 | the lower-cased string has the same length and lower-cases each ASCII letter in place |
| Text.LowerIsWordIff | src/main/java/com/google/sps/servlets/QuestionnaireServlet.java:126-128 | lower-casing a string gives a lower-case word exactly when the string spells that word with each letter in either case |
| Text.ParseBoolean | src/main/java/com/google/sps/servlets/QuestionnaireServlet.java:205-210 | a value parses as true exactly when it is the four letters t, r, u, e in any letter case |
| Text.Pieces | src/main/java/com/google/sps/servlets/QuestionnaireServlet.java:183 | the pieces contain no separator (with `Text.PiecesAreSeparatorFree`) and joining them with the separator rebuilds the string |
| Text.JavaSplit | src/main/java/com/google/sps/servlets/QuestionnaireServlet.java:183 | the tokens are the pieces of the string between separators with the trailing empty ones dropped, or the whole string when it holds no separator, even when empty |
| Text.SplitJoinRoundTrip | src/main/webapp/static/scripts/questionnaire.js:25-28 | splitting the joined values gives them back when none contains the separator and the last is not an empty value after others |
| Text.TrailingEmptyValueIsLost | src/main/java/com/google/sps/servlets/QuestionnaireServlet.java:183 | whenever the last of several separator-free values is empty, splitting their join gives fewer values, so the round trip fails |
| Topics.Name | src/main/java/com/google/sps/data/Topic.java:21-29 | every constant name is non-empty and free of the separator, so topic lists can be joined and split |
| Topics.FromName | src/main/java/com/google/sps/data/Topic.java:20-29 | lookup succeeds only on a constant name, returning the member with that name, and fails when no member has the name |
| Topics.AllTopicsEnumerates | src/main/java/com/google/sps/data/Topic.java:21-29 | there are exactly nine members, each listed once in declaration order |
| Topics.TitleInjective | src/main/java/com/google/sps/data/Topic.java:21-29 | distinct topics have distinct titles |
| Topics.FromNameInvertsName | src/main/java/com/google/sps/data/Topic.java:20-29 | looking up a member's name gives that member, and a lookup gives a member exactly for its name |
| Topics.OtherIsMember | src/main/java/com/google/sps/data/Topic.java:29 | `OTHER` is a member and its title is "Other" |
| Topics.TitleIsTitleCasedName | src/main/java/com/google/sps/data/Topic.java:21-39 | every title is the constant name with `_` as a space and each word title-cased |
| Genders.FromName | src/main/java/com/google/sps/data/Gender.java:3-21 | lookup succeeds only on a constant name, returning the member with that name, and fails when no member has the name |
| Genders.AllGendersEnumerates | src/main/java/com/google/sps/data/Gender.java:4-21 | there are exactly eighteen members, each listed once in declaration order |
| Genders.TitleInjective | src/main/java/com/google/sps/data/Gender.java:4-21 | distinct genders have distinct titles |
| Genders.FromNameInvertsName | src/main/java/com/google/sps/data/Gender.java:3-21 | looking up a member's name gives that member, and a lookup gives a member exactly for its name |
| Genders.OtherButNoUnspecified | src/main/java/com/google/sps/data/Gender.java:4-21 | `OTHER` is a member, and looking up `UNSPECIFIED` fails |
| Genders.TitleIsTitleCasedName | src/main/java/com/google/sps/data/Gender.java:4-31 | every title is the constant name with `_` as a space and each word title-cased |
| Checkbox.AppendCheckedValues | src/main/webapp/static/scripts/questionnaire.js:22-30 | with nothing checked the field is unchanged; otherwise the joined values are appended; the old value stays a prefix; from an empty field, splitting the result gives back the checked values |
| Checkbox.CheckForOther | src/main/webapp/static/scripts/questionnaire.js:32-39 | the slot `other-input-<question>` gets the free-text input exactly when the value is "other" in any letter case, and is cleared otherwise |
| Questionnaire.ValidPrefix | src/main/java/com/google/sps/servlets/QuestionnaireServlet.java:182-188 | the result is the longest prefix of the tokens whose every token names a constant, each replaced by its constant |
| Questionnaire.LongestValidPrefixUnique | src/main/java/com/google/sps/servlets/QuestionnaireServlet.java:182-188 | only one list is the longest valid prefix of given tokens |
| Questionnaire.ParseEthnicities | src/main/java/com/google/sps/servlets/QuestionnaireServlet.java:179-188 | the ethnicities are the longest prefix of the split list (default `UNSPECIFIED`) made of ethnicity names |
| Questionnaire.ParseFocusList | src/main/java/com/google/sps/servlets/QuestionnaireServlet.java:252-262 | the focus list is the longest prefix of the split list made of topic names, and `[OTHER]` when the parameter is missing |
| Questionnaire.ReadFlag | src/main/java/com/google/sps/servlets/QuestionnaireServlet.java:205-210 | a flag is true exactly when its parameter is present and parses as true |
| Questionnaire.ReadConstants | src/main/java/com/google/sps/servlets/QuestionnaireServlet.java:153-214 | the shared lookups succeed exactly when user type, country, language, gender, education level and mentor type all name constants; a missing gender always fails |
| Questionnaire.BuildAccount | src/main/java/com/google/sps/servlets/QuestionnaireServlet.java:228-245 | the account carries the named constants, submitted texts and flags, with each "other" text only next to an `OTHER` choice |
| Questionnaire.BuildMentee | src/main/java/com/google/sps/servlets/QuestionnaireServlet.java:217-249 | a mentee is built exactly when the meeting frequency and goal name constants, and it carries them and the mentor type as desired mentor type |
| Questionnaire.ConstructUser | src/main/java/com/google/sps/servlets/QuestionnaireServlet.java:152-287 | construction succeeds exactly when every named constant exists. It fails whenever gender is missing. User type `MENTEE` gives a mentee with goal default `OTHER` and frequency default `WEEKLY`. Any other type gives a visible mentor whose focus list defaults to `[OTHER]` |
| Questionnaire.HandleGet | src/main/java/com/google/sps/servlets/QuestionnaireServlet.java:122-137 | no template gives status 500. Otherwise the form is shown exactly when the form type parameter is present and spells "mentor" or "mentee" in any letter case; the form gets the lower-cased type, and anything else redirects to the landing page |
| Questionnaire.HandlePost | src/main/java/com/google/sps/servlets/QuestionnaireServlet.java:141-150 | a created mentee is redirected to the mentor search and every other account to the profile page |
| Questionnaire.ShownFormTypeNeverMakesMentee | src/main/java/com/google/sps/servlets/QuestionnaireServlet.java:126-154 | a submission carrying the form type as the GET handler lower-cased it never creates a mentee, because the POST handler compares the raw value with `MENTEE` |
| Questionnaire.ShownFormTypeFailsUpperCaseUserTypes | src/main/java/com/google/sps/servlets/QuestionnaireServlet.java:153-154 | when no user type is named "mentor" or "mentee", a submission whose form type is one of those lower-case words fails to construct a user, and the POST handler fails with it |
| Questionnaire.EthnicitiesRoundTrip | src/main/java/com/google/sps/servlets/QuestionnaireServlet.java:180-188 | any list of ethnicities the script joins into the field, none included, comes back unchanged from the servlet's parsing |
| Questionnaire.FocusListRoundTrip | src/main/java/com/google/sps/servlets/QuestionnaireServlet.java:252-262 | any list of focus topics the script joins into the field, none included, comes back unchanged from the servlet's parsing |
| Authenticate.RedirPathname | src/main/java/com/google/sps/servlets/AuthenticateServlet.java:77-88 | an empty parameter or an unsupported encoding gives the site root, otherwise the decoded path. A missing parameter is `MissingRedir` and one the decoder rejects is `MalformedRedir` |
| Authenticate.ProfileURLInjective | src/main/java/com/google/sps/servlets/AuthenticateServlet.java:65-70 | two users with the same profile link are the same user: the link built from the profile path, the user-id key and the id identifies its user |
| Authenticate.HandleAuthenticate | src/main/java/com/google/sps/servlets/AuthenticateServlet.java:52-72 | `autoRedir` is set exactly when the destination is not public and otherwise keeps its initial value. A visitor gets a login link for the destination and keeps the initial profile link. A user gets the logout link and their profile link |
| Authenticate.RedirRoundTrip | src/main/java/com/google/sps/servlets/AuthenticateServlet.java:77-88 | given the pathname the container has already decoded, the servlet returns that pathname exactly when decoding it again leaves it unchanged, or when the decoder gives up on a pathname that is the site root; an empty pathname gives the site root |
| Authenticate.PlusInPathnameIsLost | src/main/java/com/google/sps/servlets/AuthenticateServlet.java:82 | the second decoding turns "/a+b" into "/a b", so the visitor is not sent back to the page they came from |
| Authenticate.PercentInPathnameFails | src/main/java/com/google/sps/servlets/AuthenticateServlet.java:82 | the second decoding rejects "/100%", so the request ends in `MalformedRedir` |
| Authenticate.LoggedInLinksIgnoreDestination | src/main/java/com/google/sps/servlets/AuthenticateServlet.java:61-71 | for a signed-in user, two destinations give the same state apart from `autoRedir` |
| Authenticate.EmptyRedirLogsInToBase | src/main/java/com/google/sps/servlets/AuthenticateServlet.java:56-60 | an empty `redir` parameter gives a visitor the login link for the site root |
| RequestStore.PublishRequest | src/main/java/com/google/sps/data/DataAccess.java:38 | publishing makes the request pending and changes no other request and no connection |
| RequestStore.DeleteRequest | src/main/java/com/google/sps/data/DataAccess.java:42 | deleting removes the request and changes no other request and no connection |
| RequestStore.MakeConnection | src/main/java/com/google/sps/data/DataAccess.java:50 | the pair gains one connection, even when already connected, and nothing else changes |
| RequestStore.ApproveRequest | src/main/java/com/google/sps/data/DataAccess.java:44-45 | approving removes the request, keeps the other requests, and adds one connection between its mentor and mentee |
| RequestStore.DenyRequest | src/main/java/com/google/sps/data/DataAccess.java:47-48 | denying is deleting: it removes the request, keeps the other requests, and leaves the connections unchanged |
| RequestStore.ApproveIsDeleteThenConnect | src/main/java/com/google/sps/data/DataAccess.java:42-50 | approving equals deleting the request and then connecting its mentor and mentee |
| RequestStore.DeleteUndoesPublish | src/main/java/com/google/sps/data/DataAccess.java:38-42 | deleting a request just published restores the store |
| RequestStore.ApproveAndDenyAgreeOnPending | src/main/java/com/google/sps/data/DataAccess.java:44-48 | approving and denying the same request leave the same requests pending |
| RequestStore.Step | src/main/java/com/google/sps/data/DataAccess.java:38-48 | only an approval adds a connection; an approved or denied request is no longer pending |
| RequestStore.Approved | src/main/java/com/google/sps/data/DataAccess.java:44-45 | every connection counted for a run of events is the connection of some approved request, and a run without approvals counts none |
| RequestStore.ConnectionsComeFromApprovals | src/main/java/com/google/sps/data/DataAccess.java:44-50 | after any sequence of publish, approve and deny steps, the connections are the initial ones plus one per approval |
| RequestStore.ResolvedRequestIsGone | src/main/java/com/google/sps/data/DataAccess.java:44-48 | an approved or denied request stays not pending unless it is published again |

## Left out

- Date parsing. `SimpleDateFormat` and `new Date()` are the `parseDate`
  and `now` fields of the environment, and a date is an opaque value.
- Time zones. The time zone is kept as the submitted id, because
  `TimeZone.getTimeZone` and `TimeZoneInfo` are not part of this model.
- Template loading and rendering, response writing, JSON serialisation, and
  `sendRedirect` mechanics. Only the page redirected to and the status are
  modelled.
- `createUser` and `getDefaultRenderingContext`. The servlet calls them on
  its data-access object, but the `DataAccess` interface
  (`DataAccess.java`) declares neither of them.
- `getCurrentUser`. The `DataAccess` interface declares it, and the servlet
  uses the `DatastoreAccess` implementation, which is not part of this
  model. The current user's id and e-mail are inputs.
- The parameter-name and URL constants (`ParameterConstants`,
  `URLPatterns`). Their values are not part of this model, so parameters are
  a datatype and URLs are the `Routes` record.
- The user-type key. The POST side reads it under `ContextFields.FORM_TYPE`
  and the GET side under `ParameterConstants.FORM_TYPE`. Both are the one
  `FormType` key here, because the second value is not part of this model.
- Case folding. It is ASCII-only, while Java and JavaScript also fold
  non-ASCII letters. Every comparison the code makes is against an ASCII word
  ("mentor", "mentee", "other", "true"). The results could differ only for
  non-ASCII letters that fold to ASCII, such as the Kelvin sign.
- Builder validation. `Mentee.Builder` and `Mentor.Builder` are not part of
  this model, so a built user is a record with one field per builder call.
- `checklistCheckForOther`, event wiring and the authentication page
  script's button rendering. They only touch the page.
- Logging. The `LOG.warning` and `LOG.severe` calls in both servlets have no
  effect on the results, so they are dropped.
- URL decoding. `URLDecoder.decode` is the `decode` parameter, so its
  outcome on a given string is an input. The script encodes its pathname
  with `encodeURIComponent` and the servlet container decodes the query
  string, so the servlet decodes the pathname a second time.
- Authenticate.RedirRoundTrip: does not promise that the visitor comes back
  to the page they were on, because the servlet decodes the pathname twice.
  A pathname holding `+` or `%` is changed or rejected, as
  `Authenticate.PlusInPathnameIsLost` and
  `Authenticate.PercentInPathnameFails` show.
- Store queries: users, shortlists, related mentors and mentees, incoming and
  outgoing requests, `getConnections`, and `getMentorshipRequest`. Their
  semantics are not stated in the data-access interface.
- Not-found failures of approve and deny on a request that is not pending.
  The interface does not state them, so approve and deny are total here.
- Republishing a pending request. Pending requests form a set, so
  publishing a pending request again leaves the set unchanged. Whether the
  store would keep two records is not stated.
- Transactions, concurrency and races in the store. They are not visible in
  the interface. Approval is one atomic step here.
- Questionnaire.ReadConstants: the same applies to its failures as to
  `Questionnaire.ConstructUser` below.
- Questionnaire.ConstructUser: on failure it states only that the error
  reports the parameter's submitted value when the parameter is present. For
  a missing parameter the reported name is the call site's default, and the
  contract does not state which one.
