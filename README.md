# Henson's NationStates client, modelled in Dafny

Henson drives many NationStates nations at once. Its `NsClient` class
(`Henson/Models/NSClient.cs`) does the following:

- verifies a nation through the API (`Ping`) and turns the reply into a `Nation`;
- verifies a batch of nations one by one, pausing 750 ms before each (`PingMany`);
- finds which of the user's nations is the World Assembly member (`FindWA`);
- logs in through the site and collects the `chk` and `localid` session tokens (`Login`);
- decides from the body of the response whether a World Assembly application
  (`ApplyWA`) or a region move (`MoveToJP`) succeeded;
- builds the user agent that identifies the operator to the site (the `UserAgent` setter).

The model keeps the client's own logic and replaces transport and parsing by
their results:

- an API call followed by its XML parse is an `ApiReply`: `Failed` when either
  raised, or the parsed element list;
- a site page is the list of its parsed elements, or `None` when the response
  had no content;
- an action's response is its raw body, or `None`.

C# `null` results are `Option.None`. Some exceptions are raised outside any
`try` block and escape the method. These are modelled explicitly as
`Outcome.Throws`; they are not excluded by preconditions.

Files:

- `wrappers.dfy`: `Option`.
- `strings.dfy` (module `Strings`): the .NET string operations the client
  uses. `ToLower`/`ToUpper` are restricted to ASCII letters. Also `Replace`,
  `Split` with its inverse `Join`, and the ordinal `Contains`, proved
  equivalent to "the substring occurs at some index".
- `documents.dfy` (module `Documents`): the lookups done on the parsed
  replies. `FindProperty` gives the text of the first element with a given
  tag. `//input[@name='…']` followed by `.Attributes["value"]` gives the value
  attribute of the first matching input.
- `nsclient.dfy` (module `Models`): the datatypes `NationLogin`, `NationGrid`
  and `Nation`. The class `NsClient` holds the one piece of state the client
  changes, its user agent. Its operations and the lemmas about them are also here.

Two behaviours of the code are easy to misread as normalisation; the model
follows the code in both.

- The region is stored with only its first character upper-cased. The
  rest is kept as parsed, not lower-cased (`MembersExample` and
  `RegionExample` show both behaviours).
- The World Assembly roster is not lower-cased: underscores become spaces and nothing else
  changes. Matching therefore succeeds only if the API already sends names in lower case.

## Model

| member | source | states |
|---|---|---|
| `Strings.ToUpperChar` | Henson/Models/NSClient.cs:98 | `char.ToUpper`: the result is never a lower-case letter; a lower-case letter maps to the upper-case letter whose lower case it is; anything else is unchanged |
| `Strings.ToLower` | Henson/Models/NSClient.cs:141 | `string.ToLower`: same length, each character lower-cased, no upper-case letter left |
| `Strings.ReplaceChar` | Henson/Models/NSClient.cs:137 | `Replace('_', ' ')`: same length, exactly the `from` characters become `to`, and no `from` remains |
| `Strings.Split` | Henson/Models/NSClient.cs:137 | `Split(',')`: at least one piece, and no piece contains the separator |
| `Strings.JoinSplit` | Henson/Models/NSClient.cs:137 | joining the pieces of a split with the separator gives back the original text |
| `Strings.SplitJoin` | Henson/Models/NSClient.cs:137 | splitting a join of separator-free parts gives back exactly those parts |
| `Strings.SplitCount` | Henson/Models/NSClient.cs:137 | a split has one piece more than the text has separators, so empty pieces are kept |
| `Strings.Contains` | Henson/Models/NSClient.cs:202 | `string.Contains`: true exactly when the substring occurs at some index |
| `Documents.FindProperty` | Henson/Models/NSClient.cs:98-99 | `None` exactly when no element has the tag (compared without regard to ASCII case); otherwise the text of the first element, in document order, that has it |
| `Documents.SameTagIsLowerEqual` | Henson/Models/NSClient.cs:137 | two tags match exactly when their `ToLower` forms are equal |
| `Documents.SelectInput` | Henson/Models/NSClient.cs:174-175 | `//input[@name=…]`: `None` exactly when no input has that name; otherwise the index of the first one that does |
| `Documents.InputValue` | Henson/Models/NSClient.cs:174-175 | a value exactly when the first input with that name has a `value` attribute, and it is that attribute |
| `Documents.InputValueIgnoresOtherMarkup` | Henson/Models/NSClient.cs:174-175 | inserting any element that is not an input of that name, anywhere in the page, does not change the lookup |
| `Models.CapitaliseRegion` | Henson/Models/NSClient.cs:98 | the region keeps its length; its first character is upper-cased and is no lower-case letter; characters 1.. are unchanged |
| `Models.RegionExample` | Henson/Models/NSClient.cs:98 | "the north pacific" becomes "The north pacific"; "lAZARUS" becomes "LAZARUS", so the tail is not lower-cased |
| `Models.NsClient.Ping` | Henson/Models/NSClient.cs:78-100 | null exactly when the API call or parse failed; raises exactly when the parsed reply lacks name, flag or region or has an empty region; otherwise the nation has the parsed name and flag, the capitalised region and the login's password unchanged |
| `Models.PingUpperCaseTags` | Henson/Models/NSClient.cs:98-99 | a reply with upper-case `NAME`, `FLAG` and `REGION` tags and a non-empty region gives the nation with those values, the login's password and the capitalised region |
| `Models.NsClient.PingMany` | Henson/Models/NSClient.cs:107-118 | returns exactly when no ping raises, with one slot per login in input order, slot i being the result of pinging login i (a failed login leaves a null slot and the loop goes on); the trace is one 750 ms pause then one request per login; if a ping raises, the trace ends at the first raising login's request |
| `Models.ScheduleAt` | Henson/Models/NSClient.cs:111-115 | a batch trace has two events per login: pause i at position 2i, then login i's request, including the first |
| `Models.ScheduleTotals` | Henson/Models/NSClient.cs:66 | a batch of n logins sleeps 750 ms times n in all and sends n requests |
| `Models.ScheduleSnoc` | Henson/Models/NSClient.cs:111-115 | one more login adds exactly one pause followed by its request at the end of the trace |
| `Models.MemberSet` | Henson/Models/NSClient.cs:137 | no member contains a comma or an underscore |
| `Models.MembersRoundTrip` | Henson/Models/NSClient.cs:137 | for names free of commas and underscores, written with spaces as underscores and joined with commas, the member set is exactly the set of names: no other normalisation |
| `Models.MembersFromPieces` | Henson/Models/NSClient.cs:137 | for every `MEMBERS` text, the pieces after replacing are the raw comma-separated pieces each with `_` turned into a space, and a string is a member exactly when it is one of those |
| `Models.MembersExample` | Henson/Models/NSClient.cs:137 | "Testlandia,North_Korekania,South_Korekania" reads as {"Testlandia", "North Korekania", "South Korekania"}, case kept |
| `Models.NsClient.FindWA` | Henson/Models/NSClient.cs:125-148 | raises exactly when the API call fails or the reply has no `MEMBERS`; otherwise null exactly when no nation's lower-cased name is a member, and else the original, un-lowered name of the first such nation in list order |
| `Models.NsClient.Login` | Henson/Models/NSClient.cs:155-184 | raises exactly when the response has no content; otherwise returns the pair exactly when both the `chk` and `localid` values were found, and the pair is those two values in that order |
| `Models.LoginIgnoresOtherMarkup` | Henson/Models/NSClient.cs:171-183 | markup other than the `chk` and `localid` inputs does not change what login returns |
| `Models.NsClient.ApplyWA` | Henson/Models/NSClient.cs:191-206 | true exactly when the body exists and contains "has been received!" |
| `Models.ApplyWAExample` | Henson/Models/NSClient.cs:202 | a body containing the confirmation is a success; a missing body is a failure |
| `Models.NsClient.MoveToJP` | Henson/Models/NSClient.cs:214-229 | true exactly when the body exists and contains "Success!" |
| `Models.NsClient.FormatUserAgent` | Henson/Models/NSClient.cs:54 | the agent starts with "Henson v", ends with the operator's nation, has the length of the fixed template plus version and nation, and `OperatorOf` recovers the nation from it |
| `Models.OperatorOf` | Henson/Models/NSClient.cs:54 | a recovered nation is a suffix of the agent |
| `Models.OperatorOfInverts` | Henson/Models/NSClient.cs:54 | any agent `OperatorOf` accepts is exactly the formatted agent of the nation it recovers |
| `Models.NsClient.SetUserAgent` | Henson/Models/NSClient.cs:49-56 | the stored user agent becomes the escaped formatted agent of the given nation |
| `Models.NsClient.constructor` | Henson/Models/NSClient.cs:39-54 | a client with the given version, escaping function and initial user agent |

## Left out

- HTTP transport (RestSharp `Execute`) and the API library's request call are not modelled. Their results are inputs: one `ApiReply` per API call (`replies[i]` for the i-th ping of a batch), a parsed page per site request, a body per action.
- XML and HTML parsing are not modelled. Parsed documents are lists of elements in document order, and only the lookups the client performs are modelled.
- `Documents.FindProperty`: the API library's lookup code is not part of this model. Two things about it are assumptions. First, tag names match without regard to ASCII case. The client asks for `region`, `name` and `flag` in lower case and for `MEMBERS` in upper case, from one service that writes its tags in one case. Second, looking up a missing tag raises. That, or an empty region, makes `Ping` raise at lines 98-99, outside its `try`.
- `Models.NsClient.Login`: the page load of a response without content is modelled as raising, as the HTML parser does for a null string. The request itself (nation, password, `logging_in`, `userclick`) is not modelled.
- `Models.NsClient.ApplyWA`, `Models.NsClient.MoveToJP`: the POST requests and their parameters are not modelled, only the success tests on the body.
- `Strings.ToLower`, `Strings.ToUpperChar`: only ASCII letters change case; .NET's culture-sensitive Unicode case mapping is not modelled.
- `Models.NsClient.SetUserAgent`: `Uri.EscapeDataString` and the assembly version are parameters of the client (`escape`, `version`), not computed.
- `Thread.Sleep` and wall-clock time are not modelled. Each pause is a `Sleep(750)` event in the batch trace, and `userclick` timestamps are not modelled.
- log4net logging and request headers are not modelled, because they do not affect returned values.
- The API library's own user-agent default is not modelled; it is the constructor's `initialAgent`.
