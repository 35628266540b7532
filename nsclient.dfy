/**
 * The NationStates client: verifying nations through the API, pinging a
 * batch of them at the site's pace, finding the World Assembly member among
 * a list of nations, logging in through the site to collect the session
 * tokens, and the success tests of the two actions sent with those tokens.
 *
 * Transport is replaced by its results: an `ApiReply` per API call, a parsed
 * page (or `None` when the response had no content) per site request, and
 * the raw body (or `None`) per action.
 */
module Models {
  import opened Wrappers
  import opened Strings
  import opened Documents

  /** A username-password pair as entered by the user. */
  datatype NationLogin = NationLogin(name: string, pass: string)

  /** A row of the nation grid; only its name is read here. */
  datatype NationGrid = NationGrid(name: string)

  /** A verified nation: name, password, flag and region. */
  datatype Nation = Nation(name: string, pass: string, flag: string, region: string)

  /**
   * How a call ends: it returns a value, or an exception escapes it because
   * the code that raised it is not inside a `try`.
   */
  datatype Outcome<T> = Returns(value: T) | Throws

  /** One step of a batch: a pause of the calling thread, or an API request for a nation. */
  datatype PaceEvent = Sleep(ms: nat) | Request(nation: string)

  /** The pause, in milliseconds, before each request of a batch. */
  const MultipleRequestsWaitTime: nat := 750

  /** Text the site shows when a World Assembly application was sent. */
  const ApplicationReceived: string := "has been received!"

  /** Text the site shows when a nation moved to another region. */
  const MoveSucceeded: string := "Success!"

  /** The fixed parts of the user agent around the version and the operator's nation. */
  const AgentProduct: string := "Henson v"
  const AgentDeveloper: string := " developed by nation: Notanam in use by nation: "

  /** The region as stored: the first character upper-cased, the rest exactly as given. */
  function CapitaliseRegion(region: string): (r: string)
    requires |region| > 0
    ensures |r| == |region|
    ensures r[0] == ToUpperChar(region[0]) && !IsLowerAscii(r[0])
    ensures r[1..] == region[1..]
  {
    [ToUpperChar(region[0])] + region[1..]
  }

  /** The reply has a name, a flag and a non-empty region. */
  predicate Pingable(nodes: seq<XmlNode>)
  {
    var region := FindProperty(nodes, "region");
    FindProperty(nodes, "name").Some? && FindProperty(nodes, "flag").Some? &&
    region.Some? && |region.value| > 0
  }

  /** The expected trace of a batch: before each nation's request, one fixed pause. */
  function Schedule(logins: seq<NationLogin>): (t: seq<PaceEvent>)
    decreases |logins|
  {
    if logins == [] then []
    else [Sleep(MultipleRequestsWaitTime), Request(logins[0].name)] + Schedule(logins[1..])
  }

  /** Total time a trace spends sleeping. */
  function SleepTime(t: seq<PaceEvent>): nat
    decreases |t|
  {
    if t == [] then 0
    else (if t[0].Sleep? then t[0].ms else 0) + SleepTime(t[1..])
  }

  /** Number of requests in a trace. */
  function RequestCount(t: seq<PaceEvent>): nat
    decreases |t|
  {
    if t == [] then 0
    else (if t[0].Request? then 1 else 0) + RequestCount(t[1..])
  }

  /** The set of World Assembly members read from the `MEMBERS` text. */
  function MemberSet(members: string): (s: set<string>)
    ensures forall m :: m in s ==> ',' !in m && '_' !in m
  {
    var pieces := Split(ReplaceChar(members, '_', ' '), ',');
    assert forall i :: 0 <= i < |pieces| ==> '_' !in pieces[i] by {
      forall i | 0 <= i < |pieces| ensures '_' !in pieces[i] {
        SplitPiecesFrom(ReplaceChar(members, '_', ' '), ',', '_');
      }
    }
    set p | p in pieces
  }

  /** A character absent from the text is absent from all its pieces. */
  lemma {:induction false} SplitPiecesFrom(s: string, sep: char, c: char)
    requires c !in s
    ensures forall i :: 0 <= i < |Split(s, sep)| ==> c !in Split(s, sep)[i]
    decreases |s|
  {
    if s != [] {
      SplitPiecesFrom(s[1..], sep, c);
    }
  }

  class NsClient {
    /** The assembly version written into the user agent. */
    const version: string
    /** `Uri.EscapeDataString`, whose workings are not modelled. */
    const escape: string -> string
    /** The user agent held by the API client and sent with every request. */
    var userAgent: string

    constructor (version: string, escape: string -> string, initialAgent: string)
      ensures this.version == version && this.escape == escape
      ensures userAgent == initialAgent
    {
      this.version := version;
      this.escape := escape;
      userAgent := initialAgent;
    }

    /** The text the `UserAgent` setter builds before escaping it. */
    static function FormatUserAgent(version: string, operator: string): (r: string)
      ensures |r| == |AgentProduct| + |version| + |AgentDeveloper| + |operator|
      ensures r[..|AgentProduct|] == AgentProduct
      ensures r[|r| - |operator|..] == operator
      ensures OperatorOf(version, r) == Some(operator)
    {
      var r := AgentProduct + version + AgentDeveloper + operator;
      assert r[..|AgentProduct| + |version| + |AgentDeveloper|] == AgentProduct + version + AgentDeveloper;
      r
    }

    /** The `UserAgent` setter: the escaped template around the operator's nation. */
    method SetUserAgent(operator: string)
      modifies this
      ensures userAgent == escape(FormatUserAgent(version, operator))
    {
      userAgent := escape(FormatUserAgent(version, operator));
    }

    /**
     * `Ping`: `None` (C# `null`) exactly when the API call or the parse failed;
     * otherwise a nation with the parsed name and flag, the capitalised region
     * and the password as given. Reading the fields lies outside the `try`,
     * so a reply lacking one of them, or with an empty region, raises.
     */
    static function Ping(login: NationLogin, reply: ApiReply): (r: Outcome<Option<Nation>>)
      ensures r == Returns(None) <==> reply.Failed?
      ensures r.Throws? <==> reply.Parsed? && !Pingable(reply.nodes)
      ensures r.Returns? && r.value.Some? ==>
        reply.Parsed? && Pingable(reply.nodes) &&
        var n := r.value.value;
        && Some(n.name) == FindProperty(reply.nodes, "name")
        && Some(n.flag) == FindProperty(reply.nodes, "flag")
        && n.pass == login.pass
        && n.region == CapitaliseRegion(FindProperty(reply.nodes, "region").value)
    {
      match reply
      case Failed => Returns(None)
      case Parsed(nodes) =>
        if !Pingable(nodes) then Throws
        else
          var region := CapitaliseRegion(FindProperty(nodes, "region").value);
          Returns(Some(Nation(FindProperty(nodes, "name").value, login.pass,
                              FindProperty(nodes, "flag").value, region)))
    }

    /**
     * `PingMany`: pauses, then pings, once per login in order, appending each
     * result. `replies[i]` is what the API answers to the i-th ping. If a
     * ping raises, the exception leaves the loop, and the trace ends with
     * that ping's request.
     */
    static method PingMany(logins: seq<NationLogin>, replies: seq<ApiReply>)
      returns (r: Outcome<seq<Option<Nation>>>, trace: seq<PaceEvent>)
      requires |replies| == |logins|
      ensures r.Returns? <==> forall i :: 0 <= i < |logins| ==> Ping(logins[i], replies[i]).Returns?
      ensures r.Returns? ==>
        && |r.value| == |logins|
        && (forall i :: 0 <= i < |logins| ==> Returns(r.value[i]) == Ping(logins[i], replies[i]))
        && trace == Schedule(logins)
      ensures r.Throws? ==> exists k :: FirstThrow(logins, replies, k) && trace == Schedule(logins[..k + 1])
    {
      var successes: seq<Option<Nation>> := [];
      trace := [];
      var i := 0;
      while i < |logins|
        invariant 0 <= i <= |logins|
        invariant |successes| == i
        invariant forall j :: 0 <= j < i ==> Ping(logins[j], replies[j]) == Returns(successes[j])
        invariant trace == Schedule(logins[..i])
      {
        trace := trace + [Sleep(MultipleRequestsWaitTime)];
        var p := Ping(logins[i], replies[i]);
        trace := trace + [Request(logins[i].name)];
        ScheduleSnoc(logins[..i], logins[i]);
        assert logins[..i + 1] == logins[..i] + [logins[i]];
        if p.Throws? {
          assert FirstThrow(logins, replies, i);
          r := Throws;
          return;
        }
        successes := successes + [p.value];
        i := i + 1;
      }
      assert logins[..i] == logins;
      r := Returns(successes);
    }

    /** `k` is the first login whose ping raises. */
    static ghost predicate FirstThrow(logins: seq<NationLogin>, replies: seq<ApiReply>, k: int)
      requires |replies| == |logins|
    {
      0 <= k < |logins| && Ping(logins[k], replies[k]).Throws? &&
      forall j :: 0 <= j < k ==> Ping(logins[j], replies[j]).Returns?
    }

    /**
     * `FindWA`: the first nation, in list order, whose lower-cased name is in
     * the member set, returned with its name as given; `None` when there is
     * none. The API call and the `MEMBERS` lookup are outside any `try`.
     */
    static method FindWA(nations: seq<NationGrid>, reply: ApiReply) returns (r: Outcome<Option<string>>)
      ensures r.Throws? <==> reply.Failed? || FindProperty(reply.nodes, "MEMBERS").None?
      ensures r.Returns? ==>
        var members := MemberSet(FindProperty(reply.nodes, "MEMBERS").value);
        && (r.value.None? <==> forall i :: 0 <= i < |nations| ==> ToLower(nations[i].name) !in members)
        && (r.value.Some? ==> exists k :: FirstMember(nations, members, k) && nations[k].name == r.value.value)
    {
      if reply.Failed? {
        return Throws;
      }
      var text := FindProperty(reply.nodes, "MEMBERS");
      if text.None? {
        return Throws;
      }
      var members := MemberSet(text.value);
      var i := 0;
      while i < |nations|
        invariant 0 <= i <= |nations|
        invariant forall j :: 0 <= j < i ==> ToLower(nations[j].name) !in members
      {
        if ToLower(nations[i].name) in members {
          assert FirstMember(nations, members, i);
          return Returns(Some(nations[i].name));
        }
        i := i + 1;
      }
      r := Returns(None);
    }

    /** `k` is the first nation whose lower-cased name is a member. */
    static ghost predicate FirstMember(nations: seq<NationGrid>, members: set<string>, k: int)
    {
      0 <= k < |nations| && ToLower(nations[k].name) in members &&
      forall j :: 0 <= j < k ==> ToLower(nations[j].name) !in members
    }

    /**
     * `Login`: the `chk` and `localid` values when both inputs were found on the
     * page, `None` (C# `null`) when either lookup raised. A response without
     * content makes the page load raise outside the `try`.
     */
    static function Login(page: Option<HtmlDoc>): (r: Outcome<Option<(string, string)>>)
      ensures r.Throws? <==> page.None?
      ensures r.Returns? ==>
        (r.value.Some? <==> InputValue(page.value, "chk").Some? && InputValue(page.value, "localid").Some?)
      ensures r.Returns? && r.value.Some? ==>
        r.value.value == (InputValue(page.value, "chk").value, InputValue(page.value, "localid").value)
    {
      match page
      case None => Throws
      case Some(doc) =>
        match (InputValue(doc, "chk"), InputValue(doc, "localid"))
        case (Some(chk), Some(localId)) => Returns(Some((chk, localId)))
        case _ => Returns(None)
    }

    /** `ApplyWA`: the application was sent exactly when the body exists and shows the confirmation. */
    static function ApplyWA(content: Option<string>): (ok: bool)
      ensures ok <==> content.Some? && exists i :: OccursAt(content.value, ApplicationReceived, i)
    {
      content.Some? && Contains(content.value, ApplicationReceived)
    }

    /** `MoveToJP`: the move succeeded exactly when the body exists and shows the success text. */
    static function MoveToJP(content: Option<string>): (ok: bool)
      ensures ok <==> content.Some? && exists i :: OccursAt(content.value, MoveSucceeded, i)
    {
      content.Some? && Contains(content.value, MoveSucceeded)
    }
  }

  /** Adding a login at the end of a batch adds one pause and one request at the end of its trace. */
  lemma {:induction false} ScheduleSnoc(logins: seq<NationLogin>, x: NationLogin)
    ensures Schedule(logins + [x]) == Schedule(logins) + [Sleep(MultipleRequestsWaitTime), Request(x.name)]
    decreases |logins|
  {
    if logins == [] {
      assert [x][1..] == [];
    } else {
      assert (logins + [x])[1..] == logins[1..] + [x];
      ScheduleSnoc(logins[1..], x);
    }
  }

  /**
   * The shape of a batch trace: two events per login, the pause at an even
   * position and that login's request right after it, so the first event of
   * a non-empty batch is a pause.
   */
  lemma {:induction false} ScheduleAt(logins: seq<NationLogin>, i: int)
    requires 0 <= i < |logins|
    ensures |Schedule(logins)| == 2 * |logins|
    ensures Schedule(logins)[2 * i] == Sleep(MultipleRequestsWaitTime)
    ensures Schedule(logins)[2 * i + 1] == Request(logins[i].name)
    decreases |logins|
  {
    ScheduleLength(logins);
    if i > 0 {
      ScheduleAt(logins[1..], i - 1);
    }
  }

  lemma {:induction false} ScheduleLength(logins: seq<NationLogin>)
    ensures |Schedule(logins)| == 2 * |logins|
    decreases |logins|
  {
    if logins != [] { ScheduleLength(logins[1..]); }
  }

  /** A batch of n logins sleeps 750 ms n times and sends n requests. */
  lemma {:induction false} ScheduleTotals(logins: seq<NationLogin>)
    ensures SleepTime(Schedule(logins)) == MultipleRequestsWaitTime * |logins|
    ensures RequestCount(Schedule(logins)) == |logins|
    decreases |logins|
  {
    if logins != [] {
      var t := Schedule(logins);
      var rest := Schedule(logins[1..]);
      ScheduleTotals(logins[1..]);
      assert t[1..] == [Request(logins[0].name)] + rest;
      assert t[1..][1..] == rest;
    }
  }

  /** Replacing a character other than the separator commutes with joining. */
  lemma {:induction false} ReplaceJoin(parts: seq<string>, sep: char, from: char, to: char)
    requires |parts| > 0 && from != sep
    ensures ReplaceChar(Join(parts, sep), from, to) ==
            Join(seq(|parts|, i requires 0 <= i < |parts| => ReplaceChar(parts[i], from, to)), sep)
    decreases |parts|
  {
    var mapped := seq(|parts|, i requires 0 <= i < |parts| => ReplaceChar(parts[i], from, to));
    if |parts| > 1 {
      ReplaceJoin(parts[1..], sep, from, to);
      var rest := seq(|parts| - 1, i requires 0 <= i < |parts| - 1 => ReplaceChar(parts[1..][i], from, to));
      assert mapped[1..] == rest;
      ReplaceAppend(parts[0] + [sep], Join(parts[1..], sep), from, to);
      ReplaceAppend(parts[0], [sep], from, to);
      assert ReplaceChar([sep], from, to) == [sep];
      calc {
        ReplaceChar(Join(parts, sep), from, to);
        ReplaceChar(parts[0] + [sep] + Join(parts[1..], sep), from, to);
        ReplaceChar(parts[0], from, to) + [sep] + ReplaceChar(Join(parts[1..], sep), from, to);
        mapped[0] + [sep] + Join(rest, sep);
        Join(mapped, sep);
      }
    }
  }

  lemma ReplaceAppend(a: string, b: string, from: char, to: char)
    ensures ReplaceChar(a + b, from, to) == ReplaceChar(a, from, to) + ReplaceChar(b, from, to)
  {
  }

  /** `wire` is `name` as the API writes it, each space as an underscore. */
  predicate SpacesAsUnderscores(name: string, wire: string)
  {
    |wire| == |name| && forall j :: 0 <= j < |name| ==> wire[j] == if name[j] == ' ' then '_' else name[j]
  }

  /**
   * The member set recovers the roster: writing a list of names the way the
   * API does (each space as an underscore, the names joined with commas) and
   * reading it back gives exactly the names, with no other normalisation.
   */
  lemma MembersRoundTrip(names: seq<string>, wire: seq<string>)
    requires |names| > 0 && |wire| == |names|
    requires forall i :: 0 <= i < |names| ==> ',' !in names[i] && '_' !in names[i]
    requires forall i :: 0 <= i < |names| ==> SpacesAsUnderscores(names[i], wire[i])
    ensures MemberSet(Join(wire, ',')) == set n | n in names
  {
    var back := seq(|wire|, i requires 0 <= i < |wire| => ReplaceChar(wire[i], '_', ' '));
    ReplaceJoin(wire, ',', '_', ' ');
    assert back == names by {
      forall i | 0 <= i < |names| ensures back[i] == names[i] {
        assert |back[i]| == |names[i]|;
        forall j | 0 <= j < |names[i]| ensures back[i][j] == names[i][j] {
          assert names[i][j] != '_';
        }
      }
    }
    assert forall i :: 0 <= i < |wire| ==> ',' !in wire[i];
    SplitJoin(names, ',');
  }

  /** The roster of a three-member reply: underscores become spaces, case is kept. */
  lemma MembersExample(text: string)
    requires text == "Testlandia,North_Korekania,South_Korekania"
    ensures MemberSet(text) == {"Testlandia", "North Korekania", "South Korekania"}
  {
    var names := ["Testlandia", "North Korekania", "South Korekania"];
    var wire := ["Testlandia", "North_Korekania", "South_Korekania"];
    assert SpacesAsUnderscores(names[0], wire[0]);
    assert SpacesAsUnderscores(names[1], wire[1]);
    assert SpacesAsUnderscores(names[2], wire[2]);
    RosterWire(wire);
    MembersRoundTrip(names, wire);
    assert (set n | n in names) == {"Testlandia", "North Korekania", "South Korekania"};
  }

  lemma RosterWire(wire: seq<string>)
    requires wire == ["Testlandia", "North_Korekania", "South_Korekania"]
    ensures Join(wire, ',') == "Testlandia,North_Korekania,South_Korekania"
  {
  }

  /**
   * For every `MEMBERS` text: the members are the comma-separated pieces of
   * the raw text, each with its underscores turned into spaces, and nothing else.
   */
  lemma {:induction false} MembersFromPieces(text: string)
    ensures Split(ReplaceChar(text, '_', ' '), ',') ==
            seq(|Split(text, ',')|, i requires 0 <= i < |Split(text, ',')| => ReplaceChar(Split(text, ',')[i], '_', ' '))
    ensures forall m :: m in MemberSet(text) <==>
              exists i :: 0 <= i < |Split(text, ',')| && m == ReplaceChar(Split(text, ',')[i], '_', ' ')
  {
    var parts := Split(text, ',');
    var mapped := seq(|parts|, i requires 0 <= i < |parts| => ReplaceChar(parts[i], '_', ' '));
    JoinSplit(text, ',');
    ReplaceJoin(parts, ',', '_', ' ');
    assert forall i :: 0 <= i < |mapped| ==> ',' !in mapped[i] by {
      forall i | 0 <= i < |mapped| ensures ',' !in mapped[i] {
        assert ',' !in parts[i];
        assert forall j :: 0 <= j < |mapped[i]| ==> mapped[i][j] != ',';
      }
    }
    SplitJoin(mapped, ',');
    var pieces := Split(ReplaceChar(text, '_', ' '), ',');
    forall m ensures m in MemberSet(text) <==>
                       exists i :: 0 <= i < |Split(text, ',')| && m == ReplaceChar(Split(text, ',')[i], '_', ' ') {
      if m in MemberSet(text) {
        var i :| 0 <= i < |pieces| && pieces[i] == m;
        assert m == ReplaceChar(Split(text, ',')[i], '_', ' ');
      }
      if exists i :: 0 <= i < |Split(text, ',')| && m == ReplaceChar(Split(text, ',')[i], '_', ' ') {
        var i :| 0 <= i < |Split(text, ',')| && m == ReplaceChar(Split(text, ',')[i], '_', ' ');
        assert pieces[i] == m;
      }
    }
  }

  /** A reply whose tags are in upper case, as the service writes them, pings successfully. */
  lemma PingUpperCaseTags(login: NationLogin, name: string, flag: string, region: string, nodes: seq<XmlNode>)
    requires |region| > 0
    requires nodes == [XmlNode("NAME", name), XmlNode("FLAG", flag), XmlNode("REGION", region)]
    ensures NsClient.Ping(login, Parsed(nodes)) ==
            Returns(Some(Nation(name, login.pass, flag, CapitaliseRegion(region))))
  {
    UpperCaseTags();
    var rest := nodes[1..];
    assert rest == [XmlNode("FLAG", flag), XmlNode("REGION", region)];
    assert rest[1..] == [XmlNode("REGION", region)];
    assert FindProperty(nodes, "name") == Some(name);
    assert FindProperty(rest, "flag") == Some(flag);
    assert FindProperty(rest[1..], "region") == Some(region);
    assert FindProperty(rest, "region") == Some(region);
  }

  /** The service's upper-case tags match the client's lower-case keys, and only their own. */
  lemma UpperCaseTags()
    ensures SameTag("NAME", "name") && SameTag("FLAG", "flag") && SameTag("REGION", "region")
    ensures !SameTag("NAME", "flag") && !SameTag("NAME", "region") && !SameTag("FLAG", "region")
  {
  }

  /** Login ignores all markup other than the two inputs it looks for. */
  lemma LoginIgnoresOtherMarkup(before: HtmlDoc, e: HtmlElement, after: HtmlDoc)
    requires !IsInputNamed(e, "chk") && !IsInputNamed(e, "localid")
    ensures NsClient.Login(Some(before + [e] + after)) == NsClient.Login(Some(before + after))
  {
    InputValueIgnoresOtherMarkup(before, e, after, "chk");
    InputValueIgnoresOtherMarkup(before, e, after, "localid");
  }

  /** A region is stored with its tail as parsed: only the first letter changes. */
  lemma RegionExample()
    ensures CapitaliseRegion("the north pacific") == "The north pacific"
    ensures CapitaliseRegion("lAZARUS") == "LAZARUS"
  {
  }

  /** The confirmation text decides `ApplyWA`, whatever else the body holds. */
  lemma ApplyWAExample()
    ensures NsClient.ApplyWA(Some("Your application has been received!"))
    ensures !NsClient.ApplyWA(None)
  {
    assert OccursAt("Your application has been received!", ApplicationReceived, 17);
  }

  /** Recovers the operator's nation from an unescaped user agent of this version. */
  function OperatorOf(version: string, agent: string): (r: Option<string>)
    ensures r.Some? ==> |r.value| <= |agent| && agent[|agent| - |r.value|..] == r.value
  {
    var head := AgentProduct + version + AgentDeveloper;
    if |head| <= |agent| && agent[..|head|] == head then Some(agent[|head|..]) else None
  }

  /** `OperatorOf` accepts only agents of this version's format, and inverts it. */
  lemma OperatorOfInverts(version: string, agent: string)
    requires OperatorOf(version, agent).Some?
    ensures NsClient.FormatUserAgent(version, OperatorOf(version, agent).value) == agent
  {
  }
}
