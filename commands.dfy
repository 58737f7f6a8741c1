// The command interpreter: the time-of-day greeting, the ordered chain of
// phrase tests over a normalised transcript, and what each command does
// (a fixed spoken reply, or a switch to another page).
module Commands {
  import opened Text

  const MorningGreeting := "Good Morning, How can I help you?"
  const AfternoonGreeting := "Good Afternoon, How can I help you?"
  const EveningGreeting := "Good Evening, How can I help you?"

  const HelloReply := "Hello, how can I help you?"
  const NameReply := "My name is Edith. I am a virtual assistant at this page."
  const MakerReply := "I am made by SmartCoderRahis for assistance on his website."
  const AbilityReply := "I can assist you through this page. I can do lots of things except the things which are in the developing phase."
  const FarewellReply := "I am gonna sleep now. Goodbye!"
  const FallbackReply := "I am sorry! I am currently in the developing phase. Sorry for the inconvenience."
  const AlreadyHereReply := "You are already on this page."

  /** The greeting texts, which no other utterance of the assistant uses. */
  predicate IsGreeting(text: string) {
    text == MorningGreeting || text == AfternoonGreeting || text == EveningGreeting
  }

  /**
   * `wishMe`: the greeting for hour `hrs` of the day. Hours 0 to 11 are
   * morning, 12 to 15 afternoon, and every other value evening.
   */
  function WishText(hrs: int): (text: string)
    ensures IsGreeting(text)
    ensures text == MorningGreeting <==> 0 <= hrs < 12
    ensures text == AfternoonGreeting <==> 12 <= hrs < 16
    ensures text == EveningGreeting <==> hrs < 0 || 16 <= hrs
  {
    if hrs >= 0 && hrs < 12 then MorningGreeting
    else if hrs >= 12 && hrs < 16 then AfternoonGreeting
    else EveningGreeting
  }

  /** What a transcript asks for. Navigation carries the page file it names. */
  datatype Intent =
    | Greeting
    | NavigateTo(page: string)
    | Identity
    | Origin
    | Capability
    | Farewell
    | Unrecognized

  /** The transcript as `takeCommand` sees it: trimmed, then lower-cased. */
  function Normalize(transcript: string): (r: string)
    ensures |r| <= |transcript|
    ensures forall i :: 0 <= i < |r| ==> !IsUpper(r[i])
    ensures r == [] || (!IsSpace(r[0]) && !IsSpace(r[|r| - 1]))
    ensures LoweredSliceInSpace(transcript, r)
  {
    var t := Trim(transcript);
    LowerKeepsSlice(transcript, t);
    LowerKeepsEnds(t);
    Lower(t)
  }

  /** `r` is a slice of `s`, lower-cased, and only whitespace lies outside that slice. */
  ghost predicate LoweredSliceInSpace(s: string, r: string) {
    exists i :: OnlySpaceOutside(s, i, |r|) && r == Lower(s[i..i + |r|])
  }

  /** Lower-casing keeps a slice with only whitespace around it such a slice. */
  lemma LowerKeepsSlice(s: string, t: string)
    requires SliceInSpace(s, t)
    ensures LoweredSliceInSpace(s, Lower(t)) && |Lower(t)| <= |s|
  {
    var r := Lower(t);
    var i :| OnlySpaceOutside(s, i, |t|) && t == s[i..i + |t|];
    assert OnlySpaceOutside(s, i, |r|) && s[i..i + |r|] == t;
  }

  /** Lower-casing leaves no upper-case letter and keeps non-whitespace ends. */
  lemma LowerKeepsEnds(t: string)
    requires t == [] || (!IsSpace(t[0]) && !IsSpace(t[|t| - 1]))
    ensures var r := Lower(t);
      && (forall i :: 0 <= i < |r| ==> !IsUpper(r[i]))
      && (r == [] || (!IsSpace(r[0]) && !IsSpace(r[|r| - 1])))
  {
    var r := Lower(t);
    assert r != [] ==> r[0] == LowerChar(t[0]) && r[|r| - 1] == LowerChar(t[|t| - 1]);
  }

  /** `Normalize` is the only lower-cased slice of this kind: its contract determines it. */
  lemma NormalizeUnique(transcript: string, r: string)
    requires LoweredSliceInSpace(transcript, r)
    requires r == [] || (!IsSpace(r[0]) && !IsSpace(r[|r| - 1]))
    ensures r == Normalize(transcript)
  {
    var i :| OnlySpaceOutside(transcript, i, |r|) && r == Lower(transcript[i..i + |r|]);
    var u := transcript[i..i + |r|];
    assert OnlySpaceOutside(transcript, i, |u|);
    assert u != [] ==> r[0] == LowerChar(u[0]) && r[|r| - 1] == LowerChar(u[|u| - 1]);
    TrimUnique(transcript, u);
  }

  /** The chain of `includes` tests in `takeCommand`; the first that holds wins. */
  function Interpret(msg: string): (r: Intent)
    ensures r == Greeting <==> Contains(msg, "hello")
  {
    if Contains(msg, "hello") then Greeting
    else if Contains(msg, "go to classes page") then NavigateTo("classes.html")
    else if Contains(msg, "go to contact page") then NavigateTo("contact.html")
    else if Contains(msg, "go to home page") then NavigateTo("index.html")
    else if Contains(msg, "go to courses page") then NavigateTo("courses.html")
    else if Contains(msg, "go to blog page") then NavigateTo("Blog.html")
    else if Contains(msg, "what is your name") then Identity
    else if Contains(msg, "who made you") then Origin
    else if Contains(msg, "what can you do") then Capability
    else if Contains(msg, "stop") || Contains(msg, "goodbye") then Farewell
    else Unrecognized
  }

  /** One row of the command table: any of its phrases selects its intent. */
  datatype Rule = Rule(phrases: seq<string>, intent: Intent)

  /** The command table, in the order the tests are made. */
  const Table: seq<Rule> := [
    Rule(["hello"], Greeting),
    Rule(["go to classes page"], NavigateTo("classes.html")),
    Rule(["go to contact page"], NavigateTo("contact.html")),
    Rule(["go to home page"], NavigateTo("index.html")),
    Rule(["go to courses page"], NavigateTo("courses.html")),
    Rule(["go to blog page"], NavigateTo("Blog.html")),
    Rule(["what is your name"], Identity),
    Rule(["who made you"], Origin),
    Rule(["what can you do"], Capability),
    Rule(["stop", "goodbye"], Farewell)
  ]

  predicate Matches(msg: string, rule: Rule) {
    exists p :: p in rule.phrases && Contains(msg, p)
  }

  /** Reference reading of the table: the intent of the first matching row. */
  function FirstMatch(rules: seq<Rule>, msg: string): (r: Intent)
    ensures r == Unrecognized || exists k :: 0 <= k < |rules| && rules[k].intent == r
  {
    if rules == [] then Unrecognized
    else if Matches(msg, rules[0]) then rules[0].intent
    else FirstMatch(rules[1..], msg)
  }

  lemma FirstMatchAt(rules: seq<Rule>, k: nat, msg: string)
    requires k < |rules|
    ensures FirstMatch(rules[k..], msg) ==
      if Matches(msg, rules[k]) then rules[k].intent else FirstMatch(rules[k + 1..], msg)
  {
    assert rules[k..][1..] == rules[k + 1..];
  }

  lemma MatchesOne(msg: string, rule: Rule)
    requires |rule.phrases| == 1
    ensures Matches(msg, rule) <==> Contains(msg, rule.phrases[0])
  {
    assert rule.phrases[0] in rule.phrases;
  }

  /** A one-phrase row at `k` is passed exactly when its phrase does not occur. */
  lemma FirstMatchOne(rules: seq<Rule>, k: nat, msg: string)
    requires k < |rules| && |rules[k].phrases| == 1
    ensures FirstMatch(rules[k..], msg) ==
      if Contains(msg, rules[k].phrases[0]) then rules[k].intent else FirstMatch(rules[k + 1..], msg)
  {
    MatchesOne(msg, rules[k]);
    FirstMatchAt(rules, k, msg);
  }

  /** The last row matches exactly when "stop" or "goodbye" occurs. */
  lemma FarewellRowMatches(msg: string)
    ensures Matches(msg, Table[9]) <==> Contains(msg, "stop") || Contains(msg, "goodbye")
  {
    var rule := Table[9];
    assert rule.phrases == ["stop", "goodbye"];
    assert "stop" in rule.phrases && "goodbye" in rule.phrases;
  }

  /** The last row, read as the farewell test and the fallback. */
  lemma FarewellRow(msg: string)
    ensures FirstMatch(Table[9..], msg) ==
      if Contains(msg, "stop") || Contains(msg, "goodbye") then Farewell else Unrecognized
  {
    FarewellRowMatches(msg);
    FirstMatchAt(Table, 9, msg);
    assert Table[10..] == [];
  }

  /** The rows from the eighth on: origin, capability, farewell, fallback. */
  lemma TableTailEnd(msg: string)
    ensures FirstMatch(Table[7..], msg) ==
      if Contains(msg, "who made you") then Origin
      else if Contains(msg, "what can you do") then Capability
      else if Contains(msg, "stop") || Contains(msg, "goodbye") then Farewell
      else Unrecognized
  {
    FirstMatchOne(Table, 7, msg);
    FirstMatchOne(Table, 8, msg);
    FarewellRow(msg);
  }

  /** The rows from the sixth on, read as the tail of the chain in `takeCommand`. */
  lemma TableTail(msg: string)
    ensures FirstMatch(Table[5..], msg) ==
      if Contains(msg, "go to blog page") then NavigateTo("Blog.html")
      else if Contains(msg, "what is your name") then Identity
      else if Contains(msg, "who made you") then Origin
      else if Contains(msg, "what can you do") then Capability
      else if Contains(msg, "stop") || Contains(msg, "goodbye") then Farewell
      else Unrecognized
  {
    FirstMatchOne(Table, 5, msg);
    FirstMatchOne(Table, 6, msg);
    TableTailEnd(msg);
  }

  /** The rows from the fourth on. */
  lemma TableMiddle(msg: string)
    ensures FirstMatch(Table[3..], msg) ==
      if Contains(msg, "go to home page") then NavigateTo("index.html")
      else if Contains(msg, "go to courses page") then NavigateTo("courses.html")
      else FirstMatch(Table[5..], msg)
  {
    FirstMatchOne(Table, 3, msg);
    FirstMatchOne(Table, 4, msg);
  }

  /** The chain in `takeCommand` is exactly first-match over the table. */
  lemma InterpretIsFirstMatch(msg: string)
    ensures Interpret(msg) == FirstMatch(Table, msg)
  {
    assert Table[0..] == Table;
    FirstMatchOne(Table, 0, msg);
    FirstMatchOne(Table, 1, msg);
    FirstMatchOne(Table, 2, msg);
    TableMiddle(msg);
    TableTail(msg);
  }

  /**
   * First-match falls through to the fallback exactly when no row matches,
   * provided no row itself names the fallback.
   */
  lemma {:induction false} FirstMatchNone(rules: seq<Rule>, msg: string)
    requires forall k :: 0 <= k < |rules| ==> rules[k].intent != Unrecognized
    ensures FirstMatch(rules, msg) == Unrecognized <==>
      forall k :: 0 <= k < |rules| ==> !Matches(msg, rules[k])
  {
    if rules != [] {
      FirstMatchNone(rules[1..], msg);
      assert forall k :: 1 <= k < |rules| ==> rules[1..][k - 1] == rules[k];
    }
  }

  /**
   * When row `j` names an intent no other row names, first-match gives that
   * intent exactly when row `j` matches and no earlier row does.
   */
  lemma {:induction false} FirstMatchIs(rules: seq<Rule>, msg: string, j: nat)
    requires j < |rules| && rules[j].intent != Unrecognized
    requires forall k :: 0 <= k < |rules| && k != j ==> rules[k].intent != rules[j].intent
    ensures FirstMatch(rules, msg) == rules[j].intent <==>
      Matches(msg, rules[j]) && forall k :: 0 <= k < j ==> !Matches(msg, rules[k])
  {
    var tail := rules[1..];
    assert forall k :: 0 <= k < |tail| ==> tail[k] == rules[k + 1];
    if Matches(msg, rules[0]) {
    } else if j == 0 {
      var r := FirstMatch(tail, msg);
      if r != Unrecognized {
        var k :| 0 <= k < |tail| && tail[k].intent == r;
        assert rules[k + 1].intent == r;
      }
    } else {
      FirstMatchIs(tail, msg, j - 1);
    }
  }

  /** No row of the table names the fallback, and only the last names the farewell. */
  lemma TableIntents()
    ensures forall k :: 0 <= k < |Table| ==> Table[k].intent != Unrecognized
    ensures forall k :: 0 <= k < |Table| && k != 9 ==> Table[k].intent != Farewell
  {
    forall k | 0 <= k < |Table|
      ensures Table[k].intent != Unrecognized && (k != 9 ==> Table[k].intent != Farewell)
    {
      assert k in {0, 1, 2, 3, 4, 5, 6, 7, 8, 9};
    }
  }

  /** The fallback is chosen exactly when no row of the table has a phrase in the message. */
  lemma UnrecognizedIffNoPhrase(msg: string)
    ensures Interpret(msg) == Unrecognized <==> forall k :: 0 <= k < |Table| ==> !Matches(msg, Table[k])
  {
    InterpretIsFirstMatch(msg);
    TableIntents();
    FirstMatchNone(Table, msg);
  }

  /** Either farewell phrase ends the conversation unless an earlier row matched. */
  lemma FarewellIff(msg: string)
    ensures Interpret(msg) == Farewell <==>
      (Contains(msg, "stop") || Contains(msg, "goodbye")) &&
      forall k :: 0 <= k < 9 ==> !Matches(msg, Table[k])
  {
    InterpretIsFirstMatch(msg);
    TableIntents();
    FirstMatchIs(Table, msg, 9);
    FarewellRowMatches(msg);
  }

  /** What `takeCommand` does for an intent. */
  datatype Action =
    | Reply(text: string)       // speak the text and wait for it to finish
    | SwitchPage(page: string)  // hand the page file to `pageSwitcher`, not awaited

  function Dispatch(intent: Intent): (a: Action)
    ensures a.SwitchPage? <==> intent.NavigateTo?
    ensures intent.NavigateTo? ==> a.page == intent.page
    ensures a.Reply? ==> !IsGreeting(a.text) && a.text != AlreadyHereReply
    ensures intent == Unrecognized ==> a == Reply(FallbackReply)
  {
    match intent
    case Greeting => Reply(HelloReply)
    case NavigateTo(page) => SwitchPage(page)
    case Identity => Reply(NameReply)
    case Origin => Reply(MakerReply)
    case Capability => Reply(AbilityReply)
    case Farewell => Reply(FarewellReply)
    case Unrecognized => Reply(FallbackReply)
  }

  /** The announcement `pageSwitcher` makes before leaving for `page`. */
  function OpeningText(page: string): (text: string)
    ensures |text| >= 8 && text[..8] == "Opening " && text[0] == 'O'
    ensures !IsGreeting(text) && text != AlreadyHereReply
  {
    var text := "Opening " + BeforeHtml(page) + " page.";
    assert text[0] == 'O';
    text
  }

  /** A transcript with no surrounding whitespace and no capitals is already normalised. */
  lemma NormalizeFixed(m: string)
    requires m != [] && !IsSpace(m[0]) && !IsSpace(m[|m| - 1])
    requires forall i | 0 <= i < |m| :: !IsUpper(m[i])
    ensures Normalize(m) == m
  {
  }

  /** Normalising twice is normalising once. */
  lemma NormalizeIdempotent(t: string)
    ensures Normalize(Normalize(t)) == Normalize(t)
  {
    var m := Normalize(t);
    if m != [] {
      NormalizeFixed(m);
    }
  }

  /** Normalisation is case-insensitive: transcripts that differ only in case read alike. */
  lemma NormalizeIgnoresCase(t: string, u: string)
    requires Lower(t) == Lower(u)
    ensures Normalize(t) == Normalize(u)
  {
    LowerTrimCommute(t);
    LowerTrimCommute(u);
  }

  lemma LowerTo(s: string, t: string)
    requires |s| == |t| && forall i | 0 <= i < |s| :: LowerChar(s[i]) == t[i]
    ensures Lower(s) == t
  {
  }

  /** Without whitespace at either end, normalising is lower-casing. */
  lemma NormalizeTrimmed(s: string)
    requires s != [] && !IsSpace(s[0]) && !IsSpace(s[|s| - 1])
    ensures Trim(s) == s && Normalize(s) == Lower(s)
  {
  }

  /** Two strings of one length that differ somewhere do not contain each other. */
  lemma DiffersAt(s: string, p: string, k: nat)
    requires |s| == |p| && k < |s| && s[k] != p[k]
    ensures !Contains(s, p)
  {
  }

  /** `.html` at `n` with no dot before it: the page name is the first `n` characters. */
  lemma BeforeHtmlAt(page: string, n: nat)
    requires OccursAt(page, ".html", n)
    requires forall j | 0 <= j < n :: page[j] != '.'
    ensures BeforeHtml(page) == page[..n]
  {
    var r := BeforeHtml(page);
    assert OccursAt(page, ".html", |r|) ==> page[|r|] == '.' by {
      if OccursAt(page, ".html", |r|) {
        assert page[|r|..|r| + |".html"|][0] == page[|r|];
      }
    }
  }

  lemma LowerContact(t: string, m: string)
    requires t == "Go To Contact Page" && m == "go to contact page"
    ensures Lower(t) == m
  {
    LowerTo(t, m);
  }

  lemma NormalizeContact(t: string, m: string)
    requires t == "Go To Contact Page" && m == "go to contact page"
    ensures Normalize(t) == m
  {
    NormalizeTrimmed(t);
    LowerContact(t, m);
  }

  lemma OpeningContact(page: string)
    requires page == "contact.html"
    ensures OpeningText(page) == "Opening contact page."
  {
    assert page[7..12] == ".html";
    BeforeHtmlAt(page, 7);
  }

  /** "Go To Contact Page" asks for the contact page, announced as "Opening contact page.". */
  lemma ContactScenario()
    ensures Dispatch(Interpret(Normalize("Go To Contact Page"))) == SwitchPage("contact.html")
    ensures OpeningText("contact.html") == "Opening contact page."
  {
    NormalizeContact("Go To Contact Page", "go to contact page");
    SelectsContact("go to contact page");
    OpeningContact("contact.html");
  }

  lemma NormalizeStop(t: string, m: string)
    requires t == "STOP" && m == "stop"
    ensures Normalize(t) == m
  {
    NormalizeTrimmed(t);
    LowerTo(t, m);
  }

  /** "STOP" says the farewell. */
  lemma StopScenario(t: string)
    requires t == "STOP"
    ensures Dispatch(Interpret(Normalize(t))) == Reply(FarewellReply)
  {
    NormalizeStop(t, "stop");
    SelectsStop("stop");
  }

  // Each phrase of the table, said on its own, selects its own row: no
  // phrase contains a phrase of an earlier row, so the order of the tests
  // never hides one. Each earlier phrase is ruled out by a character it has
  // and the later one lacks, by a difference at one index of two phrases of
  // one length, or by being longer.

  lemma SelectsHello(m: string)
    requires m == "hello"
    ensures Interpret(m) == Greeting
  {
    assert OccursAt(m, "hello", 0);
    assert Contains(m, "hello");
  }

  lemma SelectsClasses(m: string)
    requires m == "go to classes page"
    ensures Interpret(m) == NavigateTo("classes.html")
  {
    LacksChar(m, "hello", 0);
    assert OccursAt(m, "go to classes page", 0);
    assert Contains(m, "go to classes page");
  }

  lemma SelectsContact(m: string)
    requires m == "go to contact page"
    ensures Interpret(m) == NavigateTo("contact.html")
  {
    LacksChar(m, "hello", 0);
    DiffersAt(m, "go to classes page", 7);
    assert OccursAt(m, "go to contact page", 0);
    assert Contains(m, "go to contact page");
  }

  lemma SelectsHome(m: string)
    requires m == "go to home page"
    ensures Interpret(m) == NavigateTo("index.html")
  {
    LacksChar(m, "hello", 2);
    assert OccursAt(m, "go to home page", 0);
    assert Contains(m, "go to home page");
  }

  /** The phrases tested before "go to courses page" do not occur in it. */
  lemma CoursesMissesEarlier(m: string)
    requires m == "go to courses page"
    ensures !Contains(m, "hello") && !Contains(m, "go to classes page")
  {
    LacksChar(m, "hello", 0);
    DiffersAt(m, "go to classes page", 7);
  }

  lemma CoursesMissesNearer(m: string)
    requires m == "go to courses page"
    ensures !Contains(m, "go to contact page") && !Contains(m, "go to home page")
  {
    DiffersAt(m, "go to contact page", 8);
    LacksChar(m, "go to home page", 6);
  }

  lemma SelectsCourses(m: string)
    requires m == "go to courses page"
    ensures Interpret(m) == NavigateTo("courses.html")
  {
    CoursesMissesEarlier(m);
    CoursesMissesNearer(m);
    assert OccursAt(m, "go to courses page", 0);
    assert Contains(m, "go to courses page");
  }

  /** Past the four phrases tested before it, the blog phrase selects the blog page. */
  lemma ChainToBlog(msg: string)
    requires !Contains(msg, "hello") && !Contains(msg, "go to classes page")
    requires !Contains(msg, "go to contact page") && !Contains(msg, "go to home page")
    requires !Contains(msg, "go to courses page") && Contains(msg, "go to blog page")
    ensures Interpret(msg) == NavigateTo("Blog.html")
  {
  }

  /** The phrases tested before "go to blog page" do not occur in it. */
  lemma BlogMissesEarlier(m: string)
    requires m == "go to blog page"
    ensures !Contains(m, "hello") && !Contains(m, "go to home page")
  {
    LacksChar(m, "hello", 0);
    DiffersAt(m, "go to home page", 6);
  }

  lemma BlogMissesLonger(m: string)
    requires m == "go to blog page"
    ensures !Contains(m, "go to classes page") && !Contains(m, "go to contact page")
    ensures !Contains(m, "go to courses page")
  {
    TooLong(m, "go to classes page");
    TooLong(m, "go to contact page");
    TooLong(m, "go to courses page");
  }

  lemma SelectsBlog(m: string)
    requires m == "go to blog page"
    ensures Interpret(m) == NavigateTo("Blog.html")
  {
    BlogMissesEarlier(m);
    BlogMissesLonger(m);
    assert OccursAt(m, "go to blog page", 0);
    assert Contains(m, "go to blog page");
    ChainToBlog(m);
  }

  /** Past the eight phrases tested before it, the name question selects `Identity`. */
  lemma ChainToIdentity(msg: string)
    requires !Contains(msg, "hello") && !Contains(msg, "go to classes page")
    requires !Contains(msg, "go to contact page") && !Contains(msg, "go to home page")
    requires !Contains(msg, "go to courses page") && !Contains(msg, "go to blog page")
    requires Contains(msg, "what is your name")
    ensures Interpret(msg) == Identity
  {
  }

  /** The phrases tested before "what is your name" do not occur in it. */
  lemma NameMissesEarlier(m: string)
    requires m == "what is your name"
    ensures !Contains(m, "hello") && !Contains(m, "go to home page") && !Contains(m, "go to blog page")
  {
    LacksChar(m, "hello", 2);
    LacksChar(m, "go to home page", 0);
    LacksChar(m, "go to blog page", 0);
  }

  lemma NameMissesLonger(m: string)
    requires m == "what is your name"
    ensures !Contains(m, "go to classes page") && !Contains(m, "go to contact page")
    ensures !Contains(m, "go to courses page")
  {
    TooLong(m, "go to classes page");
    TooLong(m, "go to contact page");
    TooLong(m, "go to courses page");
  }

  lemma SelectsName(m: string)
    requires m == "what is your name"
    ensures Interpret(m) == Identity
  {
    NameMissesEarlier(m);
    NameMissesLonger(m);
    assert OccursAt(m, "what is your name", 0);
    assert Contains(m, "what is your name");
    ChainToIdentity(m);
  }

  /** Past the seven phrases tested before it, the maker question selects `Origin`. */
  lemma ChainToOrigin(msg: string)
    requires !Contains(msg, "hello") && !Contains(msg, "go to classes page")
    requires !Contains(msg, "go to contact page") && !Contains(msg, "go to home page")
    requires !Contains(msg, "go to courses page") && !Contains(msg, "go to blog page")
    requires !Contains(msg, "what is your name") && Contains(msg, "who made you")
    ensures Interpret(msg) == Origin
  {
  }

  /** The navigation phrases are longer than "who made you". */
  lemma MakerMissesPages(m: string)
    requires m == "who made you"
    ensures !Contains(m, "go to classes page") && !Contains(m, "go to contact page")
    ensures !Contains(m, "go to home page") && !Contains(m, "go to courses page")
    ensures !Contains(m, "go to blog page")
  {
    TooLong(m, "go to classes page");
    TooLong(m, "go to contact page");
    TooLong(m, "go to home page");
    TooLong(m, "go to courses page");
    TooLong(m, "go to blog page");
  }

  lemma SelectsMaker(m: string)
    requires m == "who made you"
    ensures Interpret(m) == Origin
  {
    MakerMissesPages(m);
    LacksChar(m, "hello", 2);
    TooLong(m, "what is your name");
    assert OccursAt(m, "who made you", 0);
    assert Contains(m, "who made you");
    ChainToOrigin(m);
  }

  /** Past the eight phrases tested before it, the ability question selects `Capability`. */
  lemma ChainToCapability(msg: string)
    requires !Contains(msg, "hello") && !Contains(msg, "go to classes page")
    requires !Contains(msg, "go to contact page") && !Contains(msg, "go to home page")
    requires !Contains(msg, "go to courses page") && !Contains(msg, "go to blog page")
    requires !Contains(msg, "what is your name") && !Contains(msg, "who made you")
    requires Contains(msg, "what can you do")
    ensures Interpret(msg) == Capability
  {
  }

  /** The navigation phrases tested before "what can you do" do not occur in it. */
  lemma AbilityMissesPages(m: string)
    requires m == "what can you do"
    ensures !Contains(m, "go to classes page") && !Contains(m, "go to contact page")
    ensures !Contains(m, "go to home page") && !Contains(m, "go to courses page")
    ensures !Contains(m, "go to blog page")
  {
    TooLong(m, "go to classes page");
    TooLong(m, "go to contact page");
    DiffersAt(m, "go to home page", 0);
    TooLong(m, "go to courses page");
    DiffersAt(m, "go to blog page", 0);
  }

  /** Neither the greeting nor the name question occurs in "what can you do". */
  lemma AbilityMissesQuestions(m: string)
    requires m == "what can you do"
    ensures !Contains(m, "hello") && !Contains(m, "what is your name")
  {
    LacksChar(m, "hello", 2);
    TooLong(m, "what is your name");
  }

  /** "who made you" has an `m`, which "what can you do" lacks. */
  lemma AbilityMissesMaker(m: string)
    requires m == "what can you do"
    ensures !Contains(m, "who made you")
  {
    LacksChar(m, "who made you", 4);
  }

  lemma SelectsAbility(m: string)
    requires m == "what can you do"
    ensures Interpret(m) == Capability
  {
    AbilityMissesPages(m);
    AbilityMissesQuestions(m);
    AbilityMissesMaker(m);
    assert OccursAt(m, "what can you do", 0);
    assert Contains(m, "what can you do");
    ChainToCapability(m);
  }

  lemma SelectsStop(m: string)
    requires m == "stop"
    ensures Interpret(m) == Farewell
  {
    assert OccursAt(m, "stop", 0);
    assert Contains(m, "stop");
  }

  lemma SelectsGoodbye(m: string)
    requires m == "goodbye"
    ensures Interpret(m) == Farewell
  {
    LacksChar(m, "hello", 0);
    assert OccursAt(m, "goodbye", 0);
    assert Contains(m, "goodbye");
  }

  /** Every phrase of row `k`, said on its own, is interpreted as row `k`'s intent. */
  lemma PhraseSelectsOwnRow(k: nat, p: string)
    requires k < |Table| && p in Table[k].phrases
    ensures Interpret(p) == Table[k].intent
  {
    assert k in {0, 1, 2, 3, 4, 5, 6, 7, 8, 9};
    if k == 0 { SelectsHello(p); }
    else if k == 1 { SelectsClasses(p); }
    else if k == 2 { SelectsContact(p); }
    else if k == 3 { SelectsHome(p); }
    else if k == 4 { SelectsCourses(p); }
    else if k == 5 { SelectsBlog(p); }
    else if k == 6 { SelectsName(p); }
    else if k == 7 { SelectsMaker(p); }
    else if k == 8 { SelectsAbility(p); }
    else if p == "stop" { SelectsStop(p); }
    else { SelectsGoodbye(p); }
  }
}
