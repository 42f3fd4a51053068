/** What a URL says, whoever wrote it, and that parsing reads exactly that
    (web/src/navigation.ts). */
module NavigationMeaning {
  import opened JsMap
  import opened HostCommands
  import opened PercentEncoding
  import opened Navigation

  // ------------------------------------------------------------ actor paths

  /** A segment that may stand in an actor's path. */
  predicate Fit(segment: string) { segment != "" && segment != "." && segment != ".." && '\\' !in segment }

  /** The actor's name as segments: all fit, and at least one. */
  ghost predicate Segmented(actor: string, segments: seq<string>) {
    && segments != [] && (forall i :: 0 <= i < |segments| ==> Fit(segments[i]) && '/' !in segments[i])
    && (actor == Join(segments) || actor == "/" + Join(segments))
  }

  /** The path spells the segments, each encoded in some way. */
  ghost predicate Spells(path: string, encoded: seq<string>, segments: seq<string>) {
    && |encoded| == |segments| && segments != [] && AllPlain(encoded) && path == "/chat/" + Join(encoded)
    && forall i :: 0 <= i < |segments| ==>
      DecodeComponent(encoded[i]) == Some(segments[i]) && Fit(segments[i]) && '/' !in segments[i]
  }

  ghost predicate PathNames(path: string, actor: string) {
    exists encoded, segments :: Spells(path, encoded, segments) && actor == "/" + Join(segments)
  }

  lemma FitExact(segment: string)
    ensures Fit(segment) <==> !Unfit(segment)
  {
  }

  lemma DecodeEmpty()
    ensures DecodeComponent("") == Some("")
  {
  }

  lemma SpelledIsRead(path: string, encoded: seq<string>, segments: seq<string>)
    requires Spells(path, encoded, segments)
    ensures ActorFromPath(path) == Some("/" + Join(segments))
  {
    hide DecodeComponent, Split, Join;
    assert path[..6] == "/chat/" && path[6..] == Join(encoded);
    SplitJoin(encoded);
    DecodeEmpty();
    assert Decoded(encoded) == segments;
  }

  lemma ReadIsSpelled(path: string)
    requires ActorFromPath(path).Some?
    ensures PathNames(path, ActorFromPath(path).value)
  {
    hide DecodeComponent, Split, Join;
    var encoded := Split(path[6..]);
    var segments := Decoded(encoded);
    JoinSplit(path[6..]);
    SplitAllPlain(path[6..]);
    assert path == path[..6] + path[6..];
    forall i | 0 <= i < |segments| ensures Fit(segments[i]) && '/' !in segments[i] {
      assert !(Unfit(segments[i]) || '/' in segments[i]);
    }
    assert Spells(path, encoded, segments);
  }

  /** A path names an actor exactly if its segments decode to fit ones. */
  lemma PathNamesExact(path: string, actor: string)
    ensures PathNames(path, actor) <==> ActorFromPath(path) == Some(actor)
  {
    if PathNames(path, actor) {
      var encoded, segments :| Spells(path, encoded, segments) && actor == "/" + Join(segments);
      SpelledIsRead(path, encoded, segments);
    }
    if ActorFromPath(path) == Some(actor) { ReadIsSpelled(path); }
    hide PathNames, ActorFromPath;
  }

  lemma SegmentsFound(actor: string, segments: seq<string>)
    requires Segmented(actor, segments)
    ensures SegmentsOf(actor) == segments && ActorPath(actor).Some?
  {
    hide Join;
    assert AllPlain(segments);
    SplitJoin(segments);
    if actor == "/" + Join(segments) {
      assert actor[1..] == Join(segments);
      assert Split(actor) == [""] + Split(actor[1..]);
    }
    hide Split;
    forall i | 0 <= i < |segments| ensures !Unfit(segments[i]) { FitExact(segments[i]); }
  }

  lemma SegmentsThere(actor: string)
    requires ActorPath(actor).Some?
    ensures Segmented(actor, SegmentsOf(actor))
  {
    hide Join, Split;
    var segments := SegmentsOf(actor);
    SegmentsJoin(actor);
    BareAbsolute(actor);
    forall i | 0 <= i < |segments| ensures Fit(segments[i]) { assert !Unfit(segments[i]); }
    hide SegmentsOf;
  }

  /** An actor has a path exactly if it is made of fit segments. */
  lemma ActorPathExact(actor: string)
    ensures ActorPath(actor).Some? <==> exists segments :: Segmented(actor, segments)
  {
    if ActorPath(actor).Some? { SegmentsThere(actor); }
    forall segments | Segmented(actor, segments) ensures ActorPath(actor).Some? { SegmentsFound(actor, segments); }
    hide ActorPath, Segmented;
  }

  // -------------------------------------------------------------- the screen

  /** The names of a screen in the `view` parameter; `host` is the chat's old one. */
  predicate Calls(view: string, screen: Screen) {
    match screen
    case Tree => view == "tree"
    case Timeline => view == "timeline"
    case Inbox => view == "inbox"
    case CommandScreen => view == "command"
    case Chat => view == "chat" || view == "host"
  }

  /** The paths of a screen; a chat's path may go on with an actor's name. */
  predicate Leads(path: string, actor: Option<string>, screen: Screen) {
    match screen
    case Tree => path == "/tree"
    case Timeline => path == "/timeline"
    case Inbox => path == "/inbox"
    case CommandScreen => path == "/command"
    case Chat => path == "/chat" || path == "/host" || actor.Some?
  }

  /** The screen a URL shows: that of its path, with which the view must agree, or at
      the root the view's, or the tree. */
  predicate ShowsScreen(path: string, actor: Option<string>, view: Option<string>, screen: Screen) {
    if path == "/" then (if view.Some? then Calls(view.value, screen) else screen.Tree?)
    else Leads(path, actor, screen) && (view.Some? ==> Calls(view.value, screen))
  }

  // ----------------------------------------------------------- the selection

  /** The first value under a key. */
  function Value(ps: seq<Param>, key: ParamKey): Option<string> { Navigation.Get(ps, key) }

  predicate Given(ps: seq<Param>, key: ParamKey, value: string) { Value(ps, key) == Some(value) && value != "" }

  /** The selection a URL makes: an actor by its path or by three parameters, a
      conversation by one, or nothing; never two at once. */
  ghost predicate Chooses(ps: seq<Param>, actor: Option<string>, selection: Selection) {
    match selection
    case OfActor(Identity(run, name, incarnation)) =>
      && Given(ps, Run, run) && Given(ps, Incarnation, incarnation) && Value(ps, Conversation).None?
      && (actor.None? ==> Given(ps, ActorKey, name))
      && (actor.Some? && Value(ps, ActorKey).None? ==> name == actor.value)
      && (actor.Some? && Value(ps, ActorKey).Some? ==>
           && Value(ps, ActorKey) == Some(name) && ActorPath(name).Some?
           && actor.value == (if name != "" && name[0] == '/' then name else "/" + name))
    case OfConversation(id) =>
      actor.None? && NoIdentity(ps) && Given(ps, Conversation, id)
    case Nothing => actor.None? && NoIdentity(ps) && Value(ps, Conversation).None?
  }

  predicate NoIdentity(ps: seq<Param>) {
    Value(ps, Run).None? && Value(ps, ActorKey).None? && Value(ps, Incarnation).None?
  }

  // ------------------------------------------------------------- the whole URL

  ghost predicate Once(ps: seq<Param>) { forall key: ParamKey :: !key.Other? ==> Count(ps, key) <= 1 }

  /** An optional text: empty counts as absent. */
  predicate Says(value: Option<string>, text: Option<string>) {
    if value.Some? && value.value != "" then text == value else text.None?
  }

  /** What a URL means, parameter by parameter. */
  ghost predicate Denotes(url: Url, actor: Option<string>, route: Route) {
    var ps := url.params;
    && Once(ps)
    && (if actor.Some? then PathNames(url.path, actor.value) else forall a :: !PathNames(url.path, a))
    && ShowsScreen(url.path, actor, Value(ps, View), route.screen)
    && Chooses(ps, actor, route.selection)
    && (Value(ps, Global) == (if route.global then Some("1") else None))
    && Says(Value(ps, RequestKey), route.request) && Says(Value(ps, Sender), route.sender)
    && Says(Value(ps, Recipient), route.recipient)
    && (Value(ps, TypeKey) == (if route.kind.Some? then Some(TypeName(route.kind.value)) else None))
  }

  // ------------------------------------------------- parsing reads just that

  lemma OnceExact(ps: seq<Param>)
    ensures Once(ps) <==> !Duplicate(ps)
  {
    hide Count;
    if !Duplicate(ps) {
      forall key: ParamKey | !key.Other? ensures Count(ps, key) <= 1 {
        var i := match key
          case View => 0 case Run => 1 case ActorKey => 2 case Incarnation => 3 case Conversation => 4 case Global => 5
          case RequestKey => 6 case Sender => 7 case Recipient => 8 case TypeKey => 9 case Other(_) => 0;
        assert RouteKeys[i] == key;
      }
    } else {
      var i :| 0 <= i < |RouteKeys| && Count(ps, RouteKeys[i]) > 1;
      assert !RouteKeys[i].Other?;
    }
  }

  lemma CallsExact(view: string, screen: Screen)
    ensures Calls(view, screen) <==> ScreenNamed(if view == "host" then "chat" else view) == Some(screen)
  {
    if view == "tree" || view == "timeline" { assert view[1] == 'r' || view[1] == 'i'; }
    if view == "inbox" || view == "command" || view == "chat" || view == "host" {
      assert view[0] == 'i' || view[0] == 'c' || view[0] == 'h';
      assert view[1] == 'n' || view[1] == 'o' || view[1] == 'h';
    }
  }

  lemma UnderChatOnly(path: string)
    requires UnderChat(path)
    ensures path !in {"/", "/chat", "/host", "/tree", "/timeline", "/inbox", "/command"}
  {
    assert path[1] == path[..6][1] == 'c' && path[2] == path[..6][2] == 'h';
    assert "/timeline"[1] == 't' && "/inbox"[1] == 'i' && "/command"[2] == 'o';
  }

  lemma LeadsExact(path: string, screen: Screen, params: seq<Param>)
    requires path != "/"
    ensures var url := Url(path, params);
      Leads(path, PathActor(url), screen) <==> ScreenOf(url) == screen && !PathIssue(url)
  {
    hide ActorFromPath;
    if UnderChat(path) { UnderChatOnly(path); }
    hide UnderChat;
  }

  /** Whether the view agrees with the path's screen, or is one at all. */
  predicate ViewGood(url: Url) {
    var view := ViewOf(url.params);
    && (view.Some? ==> ScreenNamed(view.value).Some?)
    && (view.Some? && url.path != "/" ==> ScreenNamed(view.value) == Some(ScreenOf(url)))
  }

  lemma ScreenExact(url: Url, screen: Screen)
    ensures ShowsScreen(url.path, PathActor(url), Value(url.params, View), screen) <==>
      ScreenOf(url) == screen && !PathIssue(url) && ViewGood(url)
  {
    assert url == Url(url.path, url.params);
    var view := Value(url.params, View);
    if view.Some? { CallsExact(view.value, screen); }
    if url.path != "/" {
      LeadsExact(url.path, screen, url.params);
      hide Leads, ScreenOf, PathIssue;
    } else {
      RootIsNoChat(url);
    }
    hide ScreenNamed, Calls, PathActor;
  }

  lemma RootIsNoChat(url: Url)
    requires url.path == "/"
    ensures !UnderChat(url.path) && !PathIssue(url)
  {
  }

  /** The selection's part of the checks. */
  predicate ChoiceGood(url: Url) {
    var ps := url.params;
    && !(PathActor(url).Some? &&
         (Value(ps, Conversation).Some? || (Value(ps, ActorKey).Some? && !ActorMatchesPath(url))))
    && !(AskedByQuery(url) && Value(ps, Conversation).Some?)
    && !MissingIdentity(url) && Value(ps, Conversation) != Some("")
  }

  lemma ChoiceExact(url: Url, selection: Selection)
    ensures Chooses(url.params, PathActor(url), selection) <==> ChoiceGood(url) && SelectionOf(url) == selection
  {
    hide ActorPath, ActorFromPath, UnderChat, Navigation.Get;
    var actor, name := PathActor(url), Value(url.params, ActorKey);
    if name.Some? { BareAbsolute(name.value); }
    hide PathActor;
  }

  lemma InvalidExact(url: Url)
    ensures Invalid(url) <==>
      || Duplicate(url.params) || PathIssue(url) || !ViewGood(url) || !ChoiceGood(url)
      || (Value(url.params, Global).Some? && Value(url.params, Global) != Some("1"))
      || (Value(url.params, TypeKey).Some? && TypeNamed(Value(url.params, TypeKey).value).None?)
  {
    hide Duplicate, PathIssue, ScreenNamed, ScreenOf, MissingIdentity, ActorMatchesPath, AskedByQuery, PathActor,
      TypeNamed,
      Navigation.Get;
  }

  lemma TypeExact(name: string, kind: MessageType)
    ensures TypeNamed(name) == Some(kind) <==> name == TypeName(kind)
  {
    TypeBack(kind);
  }

  lemma PathActorExact(url: Url, actor: Option<string>)
    ensures (if actor.Some? then PathNames(url.path, actor.value) else forall a :: !PathNames(url.path, a)) <==>
      actor == PathActor(url)
  {
    forall a ensures PathNames(url.path, a) <==> ActorFromPath(url.path) == Some(a) { PathNamesExact(url.path, a); }
    assert PathActor(url) == ActorFromPath(url.path);
    hide PathNames, ActorFromPath, PathActor;
    if actor.None? && PathActor(url).Some? { assert PathNames(url.path, PathActor(url).value); }
  }

  /** Parsing gives a route without an issue exactly if the URL means it, whatever URL
      it is: printed here, an older one, or foreign. */
  lemma ParseExact(url: Url, route: Route)
    ensures ParseRoute(url) == Parsed(route, false) <==> exists actor :: Denotes(url, actor, route)
  {
    var ps := url.params;
    OnceExact(ps);
    ScreenExact(url, route.screen);
    ChoiceExact(url, route.selection);
    InvalidExact(url);
    if Value(ps, TypeKey).Some? && route.kind.Some? { TypeExact(Value(ps, TypeKey).value, route.kind.value); }
    forall actor ensures Denotes(url, actor, route) ==> actor == PathActor(url) { PathActorExact(url, actor); }
    PathActorExact(url, PathActor(url));
    ParsedParts(url, route);
    hide Once, Duplicate, PathIssue, ViewGood, ChoiceGood, Chooses, ShowsScreen, ScreenOf, SelectionOf, PathActor,
      PathNames,
      TypeNamed, TypeName, Invalid, ParseRoute, Navigation.Get;
    assert ParseRoute(url) == Parsed(route, false) <==> Denotes(url, PathActor(url), route);
  }

  lemma ParsedParts(url: Url, route: Route)
    ensures ParseRoute(url) == Parsed(route, false) <==>
      && !Invalid(url) && ScreenOf(url) == route.screen && SelectionOf(url) == route.selection
      && route.global == (Value(url.params, Global) == Some("1"))
      && Says(Value(url.params, RequestKey), route.request) && Says(Value(url.params, Sender), route.sender)
      && Says(Value(url.params, Recipient), route.recipient)
      && route.kind ==
         (if Value(url.params, TypeKey).Some? then TypeNamed(Value(url.params, TypeKey).value) else None)
  {
    hide Invalid, ScreenOf, SelectionOf, TypeNamed, Navigation.Get;
  }

  ghost predicate Meaningful(url: Url) { exists actor, route :: Denotes(url, actor, route) }

  /** A URL that means no route is reported, and then selects and filters nothing. */
  lemma IssueExact(url: Url)
    ensures ParseRoute(url).issue <==> !Meaningful(url)
    ensures var parsed := ParseRoute(url);
      parsed.issue ==> parsed.route == Route(parsed.route.screen, Nothing, false, None, None, None, None)
  {
    var parsed := ParseRoute(url);
    if !parsed.issue { ParseExact(url, parsed.route); }
    forall actor, route | Denotes(url, actor, route) ensures !parsed.issue { ParseExact(url, route); }
    hide Denotes, Invalid, ScreenOf, SelectionOf, TypeNamed;
  }
}
