/** Routes and their URLs (web/src/navigation.ts). */
module Navigation {
  import opened JsMap
  import opened HostCommands
  import opened PercentEncoding

  datatype Screen = Tree | Timeline | Inbox | CommandScreen | Chat

  datatype MessageType = NewTask | MessageKind | FinalAnswer | Progress

  datatype Selection = Nothing | OfActor(identity: Identity) | OfConversation(id: string)

  datatype Route = Route(screen: Screen, selection: Selection, global: bool, request: Option<string>,
                         sender: Option<string>, recipient: Option<string>, kind: Option<MessageType>)

  datatype ParamKey =
    | View | Run | ActorKey | Incarnation | Conversation | Global | RequestKey | Sender | Recipient | TypeKey
    | Other(name: string)

  datatype Param = Param(key: ParamKey, value: string)

  datatype Url = Url(path: string, params: seq<Param>)

  datatype Parsed = Parsed(route: Route, issue: bool)

  // ---------------------------------------------------------- search params

  function Get(ps: seq<Param>, key: ParamKey): Option<string> {
    if ps == [] then None else if ps[0].key == key then Some(ps[0].value) else Get(ps[1..], key)
  }

  function Count(ps: seq<Param>, key: ParamKey): nat {
    if ps == [] then 0 else (if ps[0].key == key then 1 else 0) + Count(ps[1..], key)
  }

  /** `delete` */
  function Without(ps: seq<Param>, key: ParamKey): seq<Param> {
    if ps == [] then [] else if ps[0].key == key then Without(ps[1..], key) else [ps[0]] + Without(ps[1..], key)
  }

  /** `set`: the first value is replaced and the others go, or one is appended. */
  function With(ps: seq<Param>, key: ParamKey, value: string): seq<Param> {
    if ps == [] then [Param(key, value)]
    else if ps[0].key == key then [Param(key, value)] + Without(ps[1..], key)
    else [ps[0]] + With(ps[1..], key, value)
  }

  lemma Front(p: Param, ps: seq<Param>, key: ParamKey)
    ensures Get([p] + ps, key) == if p.key == key then Some(p.value) else Get(ps, key)
    ensures Count([p] + ps, key) == (if p.key == key then 1 else 0) + Count(ps, key)
  {
    assert ([p] + ps)[1..] == ps;
  }

  lemma {:induction false} AfterWithout(ps: seq<Param>, key: ParamKey, other: ParamKey)
    ensures Get(Without(ps, key), other) == if other == key then None else Get(ps, other)
    ensures Count(Without(ps, key), other) == if other == key then 0 else Count(ps, other)
  {
    if ps != [] {
      AfterWithout(ps[1..], key, other);
      Front(ps[0], Without(ps[1..], key), other);
    }
  }

  lemma {:induction false} AfterWith(ps: seq<Param>, key: ParamKey, value: string, other: ParamKey)
    ensures Get(With(ps, key, value), other) == if other == key then Some(value) else Get(ps, other)
    ensures Count(With(ps, key, value), other) == if other == key then 1 else Count(ps, other)
  {
    hide Get, Count, Without;
    NoParams(other);
    if ps == [] {
      Front(Param(key, value), [], other);
      assert [Param(key, value)] + [] == [Param(key, value)];
    } else {
      Front(ps[0], ps[1..], other);
      assert ps == [ps[0]] + ps[1..];
      if ps[0].key == key {
        AfterWithout(ps[1..], key, other);
        Front(Param(key, value), Without(ps[1..], key), other);
      } else {
        AfterWith(ps[1..], key, value, other);
        Front(ps[0], With(ps[1..], key, value), other);
      }
    }
  }

  lemma NoParams(key: ParamKey)
    ensures Get([], key) == None && Count([], key) == 0
  {
  }

  /** The parameters that are none of the route's. */
  function Others(ps: seq<Param>): seq<Param> {
    if ps == [] then [] else if ps[0].key.Other? then [ps[0]] + Others(ps[1..]) else Others(ps[1..])
  }

  lemma OthersFront(p: Param, ps: seq<Param>)
    ensures Others([p] + ps) == if p.key.Other? then [p] + Others(ps) else Others(ps)
  {
    assert ([p] + ps)[1..] == ps;
  }

  lemma {:induction false} OthersKept(ps: seq<Param>, key: ParamKey, value: string)
    requires !key.Other?
    ensures Others(Without(ps, key)) == Others(ps) && Others(With(ps, key, value)) == Others(ps)
  {
    if ps == [] {
      OthersFront(Param(key, value), []);
      assert [Param(key, value)] + [] == [Param(key, value)];
    } else {
      OthersKept(ps[1..], key, value);
      OthersFront(ps[0], Without(ps[1..], key));
      OthersFront(ps[0], With(ps[1..], key, value));
      OthersFront(Param(key, value), Without(ps[1..], key));
    }
  }

  // -------------------------------------------------------------- segments

  function Split(s: string): (parts: seq<string>)
    ensures parts != []
  {
    if s == "" then [""]
    else
      var rest := Split(s[1..]);
      if s[0] == '/' then [""] + rest else [[s[0]] + rest[0]] + rest[1..]
  }

  function Join(parts: seq<string>): string
    requires parts != []
  {
    if |parts| == 1 then parts[0] else parts[0] + "/" + Join(parts[1..])
  }

  lemma JoinFront(c: char, parts: seq<string>)
    requires parts != []
    ensures Join([[c] + parts[0]] + parts[1..]) == [c] + Join(parts)
  {
    var all := [[c] + parts[0]] + parts[1..];
    if |parts| > 1 {
      var rest := Join(parts[1..]);
      assert all[1..] == parts[1..];
      assert ([c] + parts[0]) + "/" + rest == [c] + (parts[0] + "/" + rest);
    }
  }

  lemma JoinEmpty(parts: seq<string>)
    requires parts != []
    ensures Join([""] + parts) == "/" + Join(parts)
  {
    assert ([""] + parts)[1..] == parts;
    assert "" + "/" + Join(parts) == "/" + Join(parts);
  }

  lemma {:induction false} JoinSplit(s: string)
    ensures Join(Split(s)) == s
  {
    hide Join;
    if s == "" {
      JoinOne(s);
    } else {
      JoinSplit(s[1..]);
      JoinFront(s[0], Split(s[1..]));
      JoinEmpty(Split(s[1..]));
      assert s == [s[0]] + s[1..];
    }
  }

  lemma JoinOne(s: string)
    ensures Join([s]) == s
  {
  }

  lemma {:induction false} SplitPlain(part: string, rest: string)
    requires '/' !in part
    ensures Split(part) == [part] && Split(part + "/" + rest) == [part] + Split(rest)
  {
    var s := part + "/" + rest;
    if part == "" {
      assert s[1..] == rest;
    } else {
      SplitPlain(part[1..], rest);
      assert [part[0]] + part[1..] == part;
      assert s[1..] == part[1..] + "/" + rest;
    }
  }

  ghost predicate AllPlain(parts: seq<string>) { forall i :: 0 <= i < |parts| ==> '/' !in parts[i] }

  lemma {:induction false} SplitJoin(parts: seq<string>)
    requires parts != [] && AllPlain(parts)
    ensures Split(Join(parts)) == parts
  {
    if |parts| == 1 {
      SplitPlain(parts[0], "");
    } else {
      SplitJoin(parts[1..]);
      SplitPlain(parts[0], Join(parts[1..]));
    }
  }

  lemma {:induction false} SplitAllPlain(s: string)
    ensures AllPlain(Split(s))
  {
    if s != "" { SplitAllPlain(s[1..]); }
  }

  // ------------------------------------------------------------ actor paths

  predicate Unfit(segment: string) { segment == "" || segment == "." || segment == ".." || '\\' in segment }

  predicate AnyUnfit(parts: seq<string>) { exists i :: 0 <= i < |parts| && Unfit(parts[i]) }

  predicate Absolute(actor: string) { actor != "" && actor[0] == '/' }

  function Bare(actor: string): string { if Absolute(actor) then actor[1..] else actor }

  function SegmentsOf(actor: string): seq<string> {
    var parts := Split(actor); if parts[0] == "" then parts[1..] else parts
  }

  function Encoded(parts: seq<string>): (r: seq<string>)
    ensures |r| == |parts|
  {
    seq(|parts|, i requires 0 <= i < |parts| => EncodeComponent(parts[i]))
  }

  function ActorPath(actor: string): Option<string> {
    var parts := SegmentsOf(actor);
    if parts == [] || AnyUnfit(parts) then None else Some("/chat/" + Join(Encoded(parts)))
  }

  predicate AllDecode(parts: seq<string>) { forall i :: 0 <= i < |parts| ==> DecodeComponent(parts[i]).Some? }

  function Decoded(parts: seq<string>): (r: seq<string>)
    requires AllDecode(parts)
    ensures |r| == |parts|
  {
    seq(|parts|, i requires 0 <= i < |parts| => DecodeComponent(parts[i]).value)
  }

  function ActorFromPath(path: string): Option<string> {
    if |path| < 6 || path[..6] != "/chat/" then None
    else
      var parts := Split(path[6..]);
      if (exists i :: 0 <= i < |parts| && parts[i] == "") || !AllDecode(parts) then None
      else
        var segments := Decoded(parts);
        if (exists i :: 0 <= i < |segments| && (Unfit(segments[i]) || '/' in segments[i])) then None
        else Some("/" + Join(segments))
  }

  lemma SegmentsJoin(actor: string)
    ensures SegmentsOf(actor) != [] ==> Join(SegmentsOf(actor)) == Bare(actor)
    ensures AllPlain(SegmentsOf(actor))
    ensures actor == "" ==> SegmentsOf(actor) == []
  {
    JoinSplit(actor);
    SplitAllPlain(actor);
    var parts := Split(actor);
    if Absolute(actor) {
      assert parts == [""] + Split(actor[1..]);
      JoinSplit(actor[1..]);
      assert SegmentsOf(actor) == Split(actor[1..]);
    } else if actor != "" {
      assert parts[0] == [actor[0]] + Split(actor[1..])[0];
    }
  }

  lemma EncodedSegments(parts: seq<string>)
    requires parts != [] && !AnyUnfit(parts)
    ensures AllPlain(Encoded(parts)) && AllDecode(Encoded(parts)) && Decoded(Encoded(parts)) == parts
    ensures forall i :: 0 <= i < |parts| ==> Encoded(parts)[i] != ""
  {
    hide EncodeComponent, DecodeComponent;
    forall i | 0 <= i < |parts|
      ensures '/' !in Encoded(parts)[i] && DecodeComponent(Encoded(parts)[i]) == Some(parts[i])
        && Encoded(parts)[i] != ""
    {
      EncodedPlain(parts[i]);
      DecodeOfEncode(parts[i]);
    }
  }

  /** A printed actor path reads back as the absolute spelling of the actor. */
  lemma PathRoundTrip(actor: string)
    requires ActorPath(actor).Some?
    ensures ActorFromPath(ActorPath(actor).value) == Some("/" + Bare(actor))
  {
    hide EncodeComponent, DecodeComponent, Split;
    var parts := SegmentsOf(actor);
    SegmentsJoin(actor);
    EncodedSegments(parts);
    SplitJoin(Encoded(parts));
    var path := ActorPath(actor).value;
    assert path[..6] == "/chat/" && path[6..] == Join(Encoded(parts));
  }

  // ------------------------------------------------------------- parsing

  function ScreenNamed(name: string): Option<Screen> {
    if name == "tree" then Some(Tree) else if name == "timeline" then Some(Timeline)
      else if name == "inbox" then Some(Inbox)
    else if name == "command" then Some(CommandScreen) else if name == "chat" then Some(Chat) else None
  }

  function ScreenPath(screen: Screen): string {
    match screen
    case Tree => "/tree"
    case Timeline => "/timeline"
    case Inbox => "/inbox"
    case CommandScreen => "/command"
    case Chat => "/chat"
  }

  function TypeNamed(name: string): Option<MessageType> {
    if name == "NEW_TASK" then Some(NewTask) else if name == "MESSAGE" then Some(MessageKind)
    else if name == "FINAL_ANSWER" then Some(FinalAnswer) else if name == "PROGRESS" then Some(Progress) else None
  }

  function TypeName(kind: MessageType): string {
    match kind
    case NewTask => "NEW_TASK"
    case MessageKind => "MESSAGE"
    case FinalAnswer => "FINAL_ANSWER"
    case Progress => "PROGRESS"
  }

  predicate UnderChat(path: string) { |path| >= 6 && path[..6] == "/chat/" }

  /** The supplied view, with the old name of the chat screen mapped. */
  function ViewOf(ps: seq<Param>): Option<string> {
    var view := Get(ps, View); if view == Some("host") then Some("chat") else view
  }

  function ScreenOf(url: Url): Screen {
    var view := ViewOf(url.params);
    if url.path == "/" then
      (if view.Some? && ScreenNamed(view.value).Some? then ScreenNamed(view.value).value else Tree)
    else if url.path == "/chat" || url.path == "/host" || UnderChat(url.path) then Chat
    else if url.path == "/tree" then Tree
    else if url.path == "/timeline" then Timeline
    else if url.path == "/inbox" then Inbox
    else if url.path == "/command" then CommandScreen
    else Tree
  }

  predicate PathIssue(url: Url) {
    if UnderChat(url.path) then ActorFromPath(url.path).None?
    else url.path !in {"/", "/chat", "/host", "/tree", "/timeline", "/inbox", "/command"}
  }

  function Truthy(v: Option<string>): Option<string> { if v == Some("") then None else v }

  const RouteKeys: seq<ParamKey> :=
    [View, Run, ActorKey, Incarnation, Conversation, Global, RequestKey, Sender, Recipient, TypeKey]

  predicate Duplicate(ps: seq<Param>) { exists i :: 0 <= i < |RouteKeys| && Count(ps, RouteKeys[i]) > 1 }

  function PathActor(url: Url): Option<string> { if UnderChat(url.path) then ActorFromPath(url.path) else None }

  predicate AskedByQuery(url: Url) {
    var ps := url.params;
    PathActor(url).None? && (Get(ps, Run).Some? || Get(ps, ActorKey).Some? || Get(ps, Incarnation).Some?)
  }

  predicate ActorMatchesPath(url: Url) {
    var actor := Get(url.params, ActorKey);
    PathActor(url).Some? && actor.Some? && ActorPath(actor.value).Some?
      && "/" + Bare(actor.value) == PathActor(url).value
  }

  predicate Conflict(url: Url) {
    var ps := url.params;
    || (PathActor(url).Some? && (Get(ps, Conversation).Some? || (Get(ps, ActorKey).Some? && !ActorMatchesPath(url))))
    || (AskedByQuery(url) && Get(ps, Conversation).Some?)
    || (ViewOf(ps).Some? && url.path != "/" && ScreenNamed(ViewOf(ps).value) != Some(ScreenOf(url)))
  }

  predicate MissingIdentity(url: Url) {
    var run, actor, inc := Truthy(Get(url.params, Run)), Truthy(Get(url.params, ActorKey)),
      Truthy(Get(url.params, Incarnation));
    if PathActor(url).Some? then run.None? || inc.None?
      else AskedByQuery(url) && (run.None? || actor.None? || inc.None?)
  }

  predicate Invalid(url: Url) {
    var ps := url.params;
    || Duplicate(ps) || PathIssue(url) || Conflict(url) || MissingIdentity(url)
    || (ViewOf(ps).Some? && ScreenNamed(ViewOf(ps).value).None?)
    || Get(ps, Conversation) == Some("")
    || (Get(ps, Global).Some? && Get(ps, Global) != Some("1"))
    || (Get(ps, TypeKey).Some? && TypeNamed(Get(ps, TypeKey).value).None?)
  }

  function SelectionOf(url: Url): Selection {
    var ps := url.params;
    var run, actor, inc := Get(ps, Run), Get(ps, ActorKey), Get(ps, Incarnation);
    if PathActor(url).Some? && run.Some? && inc.Some? then
      OfActor(Identity(run.value, if actor.Some? then actor.value else PathActor(url).value, inc.value))
    else if AskedByQuery(url) && run.Some? && actor.Some? && inc.Some?
      then OfActor(Identity(run.value, actor.value, inc.value))
    else if Truthy(Get(ps, Conversation)).Some? then OfConversation(Get(ps, Conversation).value)
    else Nothing
  }

  function ParseRoute(url: Url): Parsed {
    if Invalid(url) then Parsed(Route(ScreenOf(url), Nothing, false, None, None, None, None), true)
    else
      var ps := url.params;
      Parsed(Route(ScreenOf(url), SelectionOf(url), Get(ps, Global) == Some("1"), Truthy(Get(ps, RequestKey)),
                   Truthy(Get(ps, Sender)), Truthy(Get(ps, Recipient)),
                   if Get(ps, TypeKey).Some? then TypeNamed(Get(ps, TypeKey).value) else None), false)
  }

  // ------------------------------------------------------------ printing

  function PathFor(route: Route): string {
    if route.screen.Chat? && route.selection.OfActor? && ActorPath(route.selection.identity.actor).Some?
    then ActorPath(route.selection.identity.actor).value else ScreenPath(route.screen)
  }

  /** The value a printed URL carries under a key. */
  function Printed(route: Route, key: ParamKey): Option<string> {
    match key
    case Run => if route.selection.OfActor? then Some(route.selection.identity.run) else None
    case Incarnation => if route.selection.OfActor? then Some(route.selection.identity.incarnation) else None
    case ActorKey =>
      if route.selection.OfActor? && (!route.screen.Chat? || !Absolute(route.selection.identity.actor))
      then Some(route.selection.identity.actor) else None
    case Conversation => if route.selection.OfConversation? then Some(route.selection.id) else None
    case Global => if route.global then Some("1") else None
    case RequestKey => Truthy(route.request)
    case Sender => Truthy(route.sender)
    case Recipient => Truthy(route.recipient)
    case TypeKey => if route.kind.Some? then Some(TypeName(route.kind.value)) else None
    case _ => None
  }

  /** The URL says the route, the whole route and no other. */
  ghost predicate Says(url: Url, route: Route) {
    && url.path == PathFor(route)
    && forall key: ParamKey :: !key.Other? ==>
         Get(url.params, key) == Printed(route, key)
           && Count(url.params, key) == (if Printed(route, key).Some? then 1 else 0)
  }

  /** Routes whose URL leads back to them. */
  predicate Printable(route: Route) {
    && route.request != Some("") && route.sender != Some("") && route.recipient != Some("")
    && (route.selection.OfConversation? ==> route.selection.id != "")
    && (route.selection.OfActor? ==>
         var who := route.selection.identity;
         && who.run != "" && who.incarnation != "" && who.actor != ""
         && (route.screen.Chat? && Absolute(who.actor) ==> ActorPath(who.actor).Some?))
  }

  // ---------------------------------------------------------- round trip

  predicate PathNamesActor(route: Route) {
    route.screen.Chat? && route.selection.OfActor? && ActorPath(route.selection.identity.actor).Some?
  }

  lemma ScreenPathBack(screen: Screen, params: seq<Param>)
    ensures var url := Url(ScreenPath(screen), params);
      ScreenOf(url) == screen && !PathIssue(url) && !UnderChat(url.path)
    ensures ScreenPath(screen) != "/"
  {
    var path := ScreenPath(screen);
    match screen
    case Tree => assert path[1] == 't' && path[2] == 'r';
    case Timeline => assert path[1] == 't' && path[2] == 'i' && path[..6][1] == 't';
    case Inbox => assert path[1] == 'i' && path[..6][1] == 'i';
    case CommandScreen => assert path[1] == 'c' && path[2] == 'o' && path[..6][2] == 'o';
    case Chat =>
  }

  lemma ActorPathBack(actor: string, params: seq<Param>)
    requires ActorPath(actor).Some?
    ensures var url := Url(ActorPath(actor).value, params);
      ScreenOf(url) == Chat && !PathIssue(url) && PathActor(url) == Some("/" + Bare(actor)) && url.path != "/"
  {
    PathRoundTrip(actor);
    hide ActorFromPath;
    var path := ActorPath(actor).value;
    assert path[..6] == "/chat/";
    assert path[0] == '/' && path[1] == 'c';
  }

  /** The path alone gives the screen back, and the actor where it names one. */
  lemma PathBack(url: Url, route: Route)
    requires url.path == PathFor(route)
    ensures ScreenOf(url) == route.screen && !PathIssue(url) && url.path != "/"
    ensures PathActor(url) == if PathNamesActor(route) then Some("/" + Bare(route.selection.identity.actor)) else None
  {
    hide ActorFromPath, ActorPath, ScreenOf, PathIssue, ScreenPath;
    assert url == Url(url.path, url.params);
    if PathNamesActor(route) {
      ActorPathBack(route.selection.identity.actor, url.params);
    } else {
      ScreenPathBack(route.screen, url.params);
    }
  }

  lemma TypeBack(kind: MessageType)
    ensures TypeNamed(TypeName(kind)) == Some(kind)
  {
    var name := TypeName(kind);
    match kind
    case NewTask =>
    case MessageKind => assert name[0] == 'M';
    case FinalAnswer => assert name[0] == 'F';
    case Progress => assert name[0] == 'P';
  }

  lemma NoDuplicate(url: Url, route: Route)
    requires Says(url, route)
    ensures !Duplicate(url.params)
  {
    hide Printed;
    forall i | 0 <= i < |RouteKeys| ensures Count(url.params, RouteKeys[i]) <= 1 {
      assert !RouteKeys[i].Other?;
    }
  }

  /** Everything about the URL that parsing looks at. */
  lemma Read(url: Url, route: Route)
    requires Says(url, route)
    ensures var ps := url.params;
      && Get(ps, View) == None && Get(ps, Run) == Printed(route, Run) && Get(ps, ActorKey) == Printed(route, ActorKey)
      && Get(ps, Incarnation) == Printed(route, Incarnation) && Get(ps, Conversation) == Printed(route, Conversation)
      && Get(ps, Global) == Printed(route, Global) && Get(ps, RequestKey) == Printed(route, RequestKey)
      && Get(ps, Sender) == Printed(route, Sender) && Get(ps, Recipient) == Printed(route, Recipient)
      && Get(ps, TypeKey) == Printed(route, TypeKey)
  {
    assert Printed(route, View) == None;
  }

  /** Actors whose URL carries them back: an absolute one in chat needs a path. */
  predicate IdentityPrintable(route: Route)
    requires route.selection.OfActor?
  {
    var who := route.selection.identity;
    && who.run != "" && who.incarnation != "" && who.actor != ""
    && (route.screen.Chat? && Absolute(who.actor) ==> ActorPath(who.actor).Some?)
  }

  lemma BareEmpty(actor: string)
    requires actor == ""
    ensures ActorPath(actor).None?
  {
    SegmentsJoin(actor);
  }

  lemma BareAbsolute(actor: string)
    ensures Absolute(actor) ==> "/" + Bare(actor) == actor
  {
  }

  lemma ActorParsed(url: Url, route: Route)
    requires Says(url, route) && route.selection.OfActor?
    ensures !Conflict(url)
    ensures !MissingIdentity(url) <==> IdentityPrintable(route)
    ensures IdentityPrintable(route) ==> SelectionOf(url) == route.selection
  {
    Read(url, route);
    PathBack(url, route);
    var who := route.selection.identity;
    BareAbsolute(who.actor);
    if who.actor == "" { BareEmpty(who.actor); }
    hide ActorFromPath, ActorPath, ScreenOf, PathFor, UnderChat;
  }

  lemma OtherParsed(url: Url, route: Route)
    requires Says(url, route) && !route.selection.OfActor?
    ensures !Conflict(url) && !MissingIdentity(url)
    ensures route.selection != OfConversation("") ==> SelectionOf(url) == route.selection
  {
    Read(url, route);
    PathBack(url, route);
    hide ActorFromPath, ActorPath, ScreenOf, PathFor, UnderChat;
  }

  lemma SelectionParsed(url: Url, route: Route)
    requires Says(url, route)
    ensures !Conflict(url)
    ensures (!MissingIdentity(url) && Get(url.params, Conversation) != Some("")) <==>
      (route.selection.OfActor? ==> IdentityPrintable(route)) && route.selection != OfConversation("")
    ensures (route.selection.OfActor? ==> IdentityPrintable(route)) && route.selection != OfConversation("") ==>
      SelectionOf(url) == route.selection
  {
    Read(url, route);
    hide Conflict, MissingIdentity, SelectionOf, Says, IdentityPrintable;
    if route.selection.OfActor? { ActorParsed(url, route); } else { OtherParsed(url, route); }
  }

  /** Parsing the URL printed for a route returns that route without an issue
      exactly for the printable routes. */
  lemma RoundTripExact(url: Url, route: Route)
    requires Says(url, route)
    ensures ParseRoute(url) == Parsed(route, false) <==> Printable(route)
  {
    Read(url, route);
    PathBack(url, route);
    NoDuplicate(url, route);
    SelectionParsed(url, route);
    if route.kind.Some? { TypeBack(route.kind.value); }
    hide Says, Conflict, MissingIdentity, SelectionOf, ScreenOf, PathIssue, Duplicate, ActorPath, TypeNamed, TypeName,
      PathFor;
  }

  /** Parameters so far: the keys in `done` as printed, the other route keys absent. */
  ghost predicate Set(ps: seq<Param>, route: Route, done: set<ParamKey>, base: seq<Param>) {
    && Others(ps) == Others(base)
    && forall key: ParamKey :: !key.Other? ==>
         && Get(ps, key) == (if key in done then Printed(route, key) else None)
         && Count(ps, key) == (if key in done && Printed(route, key).Some? then 1 else 0)
  }

  /** `delete` for every route key. */
  method ClearRoute(base: seq<Param>) returns (ps: seq<Param>)
    ensures Others(ps) == Others(base)
    ensures forall key: ParamKey :: !key.Other? ==> Get(ps, key) == None && Count(ps, key) == 0
  {
    ps := base;
    for i := 0 to |RouteKeys|
      invariant Others(ps) == Others(base)
      invariant forall k :: 0 <= k < i ==> Get(ps, RouteKeys[k]) == None && Count(ps, RouteKeys[k]) == 0
    {
      forall k | 0 <= k <= i
        ensures Get(Without(ps, RouteKeys[i]), RouteKeys[k]) == None
          && Count(Without(ps, RouteKeys[i]), RouteKeys[k]) == 0
      {
        AfterWithout(ps, RouteKeys[i], RouteKeys[k]);
      }
      OthersKept(ps, RouteKeys[i], "");
      ps := Without(ps, RouteKeys[i]);
    }
    forall key: ParamKey | !key.Other? ensures Get(ps, key) == None && Count(ps, key) == 0 { EveryKey(key); }
  }

  lemma EveryKey(key: ParamKey)
    requires !key.Other?
    ensures exists k :: 0 <= k < |RouteKeys| && RouteKeys[k] == key
  {
    assert RouteKeys[0] == View && RouteKeys[1] == Run && RouteKeys[2] == ActorKey && RouteKeys[3] == Incarnation
      && RouteKeys[4] == Conversation && RouteKeys[5] == Global && RouteKeys[6] == RequestKey && RouteKeys[7] == Sender
      && RouteKeys[8] == Recipient && RouteKeys[9] == TypeKey;
  }

  /** One conditional `set`. */
  method PrintKey(ps: seq<Param>, route: Route, ghost done: set<ParamKey>, ghost base: seq<Param>, key: ParamKey,
                  value: Option<string>)
    returns (next: seq<Param>)
    requires Set(ps, route, done, base) && !key.Other? && key !in done && value == Printed(route, key)
    ensures Set(next, route, done + {key}, base)
  {
    hide Printed;
    next := ps;
    if value.Some? {
      forall other: ParamKey
        ensures Get(With(ps, key, value.value), other) == (if other == key then value else Get(ps, other))
        ensures Count(With(ps, key, value.value), other) == (if other == key then 1 else Count(ps, other))
      {
        AfterWith(ps, key, value.value, other);
      }
      OthersKept(ps, key, value.value);
      next := With(ps, key, value.value);
    }
  }

  /** `routeUrl`: a copy of the base with its path and route parameters edited. */
  method RouteUrl(route: Route, base: Url) returns (url: Url)
    ensures Says(url, route) && Others(url.params) == Others(base.params)
  {
    hide ActorPath, Others, Get, Count;
    var path := ScreenPath(route.screen);
    var ps := ClearRoute(base.params);
    ghost var old0 := base.params;
    if route.selection.OfActor? {
      var who := route.selection.identity;
      if route.screen.Chat? && ActorPath(who.actor).Some? { path := ActorPath(who.actor).value; }
      ps := PrintKey(ps, route, {}, old0, Run, Some(who.run));
      ps := PrintKey(ps, route, {Run}, old0, Incarnation, Some(who.incarnation));
      ps := PrintKey(ps, route, {Run, Incarnation}, old0, ActorKey,
                     if !route.screen.Chat? || !Absolute(who.actor) then Some(who.actor) else None);
      ps := PrintKey(ps, route, {Run, Incarnation, ActorKey}, old0, Conversation, None);
    } else {
      ps := PrintKey(ps, route, {}, old0, Run, None);
      ps := PrintKey(ps, route, {Run}, old0, Incarnation, None);
      ps := PrintKey(ps, route, {Run, Incarnation}, old0, ActorKey, None);
      ps := PrintKey(ps, route, {Run, Incarnation, ActorKey}, old0, Conversation,
                     if route.selection.OfConversation? then Some(route.selection.id) else None);
    }
    ps := PrintRest(ps, route, old0);
    url := Url(path, ps);
  }

  /** All keys but the view, which is never printed. */
  lemma AllSet(ps: seq<Param>, route: Route, base: seq<Param>)
    requires Set(ps, route,
                 {Run, Incarnation, ActorKey, Conversation, Global, RequestKey, Sender, Recipient, TypeKey}, base)
    ensures Others(ps) == Others(base)
    ensures forall key: ParamKey :: !key.Other? ==>
      Get(ps, key) == Printed(route, key) && Count(ps, key) == (if Printed(route, key).Some? then 1 else 0)
  {
    hide Get, Count, Others;
    forall key: ParamKey | !key.Other?
      ensures Get(ps, key) == Printed(route, key) && Count(ps, key) == (if Printed(route, key).Some? then 1 else 0)
    {
      if key == View { assert Printed(route, key) == None; }
    }
  }

  method PrintFilters(ps0: seq<Param>, route: Route, ghost base: seq<Param>) returns (ps: seq<Param>)
    requires Set(ps0, route, {Run, Incarnation, ActorKey, Conversation, Global, RequestKey}, base)
    ensures Set(ps, route, {Run, Incarnation, ActorKey, Conversation, Global, RequestKey, Sender, Recipient, TypeKey},
                base)
  {
    hide Set;
    ps := PrintKey(ps0, route, {Run, Incarnation, ActorKey, Conversation, Global, RequestKey}, base, Sender,
                   Truthy(route.sender));
    ps := PrintKey(ps, route, {Run, Incarnation, ActorKey, Conversation, Global, RequestKey} + {Sender}, base,
                   Recipient, Truthy(route.recipient));
    ps := PrintKey(ps, route, {Run, Incarnation, ActorKey, Conversation, Global, RequestKey} + {Sender} + {Recipient},
                   base, TypeKey,
                   if route.kind.Some? then Some(TypeName(route.kind.value)) else None);
    assert {Run, Incarnation, ActorKey, Conversation, Global, RequestKey} + {Sender} + {Recipient} + {TypeKey}
        == {Run, Incarnation, ActorKey, Conversation, Global, RequestKey, Sender, Recipient, TypeKey};
  }

  method PrintRest(ps0: seq<Param>, route: Route, ghost base: seq<Param>) returns (ps: seq<Param>)
    requires Set(ps0, route, {Run, Incarnation, ActorKey, Conversation}, base)
    ensures Others(ps) == Others(base)
    ensures forall key: ParamKey :: !key.Other? ==>
      Get(ps, key) == Printed(route, key) && Count(ps, key) == (if Printed(route, key).Some? then 1 else 0)
  {
    hide Set, Others, Get, Count;
    ps := PrintKey(ps0, route, {Run, Incarnation, ActorKey, Conversation}, base, Global, if route.global
                   then Some("1") else None);
    ps := PrintKey(ps, route, {Run, Incarnation, ActorKey, Conversation} + {Global}, base, RequestKey,
                   Truthy(route.request));
    assert {Run, Incarnation, ActorKey, Conversation} + {Global} + {RequestKey}
        == {Run, Incarnation, ActorKey, Conversation, Global, RequestKey};
    ps := PrintFilters(ps, route, base);
    AllSet(ps, route, base);
  }

  /** Whatever route parameters the base carried, the printed URL leads back. */
  method PrintAndParse(route: Route, base: Url) returns (parsed: Parsed)
    requires Printable(route)
    ensures parsed == Parsed(route, false)
  {
    hide ParseRoute, Printable, Says;
    var url := RouteUrl(route, base);
    RoundTripExact(url, route);
    parsed := ParseRoute(url);
  }
}
