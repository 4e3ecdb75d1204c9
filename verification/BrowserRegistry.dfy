/** The browser server's sessions, their pages, and the markers on elements of those pages. */
module BrowserRegistry {
  import opened Options
  import opened Text

  // ---- the registry as a value ------------------------------------------------------------------

  /** The page ids of a session in the order they were added, and which of them is active. */
  datatype Tabs = Tabs(pages: seq<string>, active: Option<string>, video: bool)

  /** `markers` gives the page of each marker. */
  datatype Registry = Registry(sessions: map<string, Tabs>, markers: map<string, string>, counter: nat)

  datatype Limits = Limits(sessions: nat, pages: nat, markers: nat)

  datatype Reply =
    | Done(id: string)
    | SessionNotFound
    | PageNotFound
    | LimitExceeded
    | InvalidInput
    | Failed

  function Without(pages: seq<string>, id: string): seq<string> {
    if pages == [] then []
    else Without(pages[..|pages| - 1], id) + if pages[|pages| - 1] == id then [] else [pages[|pages| - 1]]
  }

  function FirstOf(pages: seq<string>): Option<string> { if pages == [] then None else Some(pages[0]) }

  function Unmarked(markers: map<string, string>, pages: set<string>): map<string, string> {
    map m | m in markers && markers[m] !in pages :: markers[m]
  }

  /** `prefix_number_time`, as tabs and markers are named. */
  function Named(prefix: string, n: nat, time: nat): string { prefix + "_" + Decimal(n) + "_" + Decimal(time) }

  function TabIds(times: seq<nat>): seq<string> {
    seq(|times|, i requires 0 <= i < |times| => Named("tab", i, times[i]))
  }

  /** Attaching to a running browser takes over all its tabs; `times` are the clock readings at each. */
  function Connected(l: Limits, r: Registry, sid: string, times: seq<nat>, answers: bool): (Registry, Reply) {
    if sid in r.sessions then (r, Done(sid))
    else if |r.sessions| >= l.sessions then (r, LimitExceeded)
    else if !answers then (r, SessionNotFound)
    else (r.(sessions := r.sessions[sid := Tabs(TabIds(times), FirstOf(TabIds(times)), false)]), Done(sid))
  }

  function SessionClosed(r: Registry, sid: string): Registry {
    if sid !in r.sessions then r
    else
      r.(markers := Unmarked(r.markers, set p | p in r.sessions[sid].pages),
         sessions := r.sessions - {sid})
  }

  function Launched(l: Limits, r: Registry, sid: string, reuse: bool, video: bool, starts: bool): (Registry, Reply) {
    if sid in r.sessions && reuse then (r, Done(sid))
    else
      var r1 := SessionClosed(r, sid);
      if |r1.sessions| >= l.sessions then (r1, LimitExceeded)
      else if !starts then (r1, Failed)
      else (r1.(sessions := r1.sessions[sid := Tabs([], None, video)]), Done(sid))
  }

  /** An empty page id counts as none; `generated` is the id that would be made up. */
  function PageAdded(l: Limits, r: Registry, sid: string, pageId: string, generated: string, opens: bool)
    : (Registry, Reply)
  {
    if sid !in r.sessions then (r, SessionNotFound)
    else
      var t := r.sessions[sid];
      if |t.pages| >= l.pages then (r, LimitExceeded)
      else if !opens then (r, Failed)
      else
        var id := if pageId != "" then pageId else generated;
        var pages := if id in t.pages then t.pages else t.pages + [id];
        (r.(sessions := r.sessions[sid := t.(pages := pages, active := Some(id))]), Done(id))
  }

  function PageFound(r: Registry, sid: string, pageId: string): Reply {
    if sid !in r.sessions then SessionNotFound
    else
      var t := r.sessions[sid];
      var id := if pageId != "" then pageId else if t.active.Some? then t.active.value else "";
      if id == "" || id !in t.pages then PageNotFound else Done(id)
  }

  /** The tabs without one page; if that was the active one, the first of the others is active. */
  function Shrunk(t: Tabs, id: string): Tabs {
    var pages := Without(t.pages, id);
    t.(pages := pages, active := if t.active == Some(id) then FirstOf(pages) else t.active)
  }

  /** Markers go first; when the browser then fails to close the page, the page stays. */
  function PageClosed(r: Registry, sid: string, pageId: string, closes: bool): (Registry, Reply) {
    var found := PageFound(r, sid, pageId);
    if !found.Done? then (r, found)
    else
      var r1 := r.(markers := Unmarked(r.markers, {found.id}));
      if !closes then (r1, Failed)
      else
        (r1.(sessions := r1.sessions[sid := Shrunk(r.sessions[sid], found.id)]), found)
  }

  function VideoSaved(r: Registry, sid: string, pageId: string, closes: bool): (Registry, Reply) {
    if sid !in r.sessions then (r, SessionNotFound)
    else if !r.sessions[sid].video then (r, InvalidInput)
    else PageClosed(r, sid, pageId, closes)
  }

  function PageSwitched(r: Registry, sid: string, pageId: string): (Registry, Reply) {
    if sid !in r.sessions then (r, SessionNotFound)
    else if pageId !in r.sessions[sid].pages then (r, PageNotFound)
    else (r.(sessions := r.sessions[sid := r.sessions[sid].(active := Some(pageId))]), Done(pageId))
  }

  function Marked(l: Limits, r: Registry, sid: string, pageId: string, there: bool, time: nat): (Registry, Reply) {
    var found := PageFound(r, sid, pageId);
    if !found.Done? then (r, found)
    else if !there then (r, Failed)
    else if |r.markers| >= l.markers then (r, LimitExceeded)
    else
      var id := Named("marker", r.counter + 1, time);
      (r.(markers := r.markers[id := found.id], counter := r.counter + 1), Done(id))
  }

  function MarkerRemoved(r: Registry, id: string): Registry { r.(markers := r.markers - {id}) }

  function Navigated(r: Registry, pageId: string): Registry { r.(markers := Unmarked(r.markers, {pageId})) }

  // ---- the manager ------------------------------------------------------------------------------

  class Session {
    var pages: seq<string>
    var activePageId: Option<string>
    const video: bool

    constructor (pages: seq<string>, activePageId: Option<string>, video: bool)
      ensures Now() == Tabs(pages, activePageId, video)
    {
      this.pages, this.activePageId, this.video := pages, activePageId, video;
    }

    ghost function Now(): Tabs
      reads this
    {
      Tabs(pages, activePageId, video)
    }

    /** Deletes a page; the first of the others becomes active in its stead. */
    method DeletePage(id: string)
      modifies this
      ensures Now() == Shrunk(old(Now()), id)
    {
      var remaining: seq<string> := [];
      for n := 0 to |pages|
        invariant pages == old(pages) && activePageId == old(activePageId)
        invariant remaining == Without(pages[..n], id)
      {
        assert pages[..n + 1][..n] == pages[..n];
        if pages[n] != id {
          remaining := remaining + [pages[n]];
        }
      }
      assert pages[..|pages|] == pages;
      pages := remaining;
      if activePageId == Some(id) {
        activePageId := if remaining == [] then None else Some(remaining[0]);
      }
    }
  }

  class BrowserManager {
    const limits: Limits
    var sessions: map<string, Session>
    var markers: map<string, string>
    var counter: nat

    constructor (limits: Limits)
      ensures Valid() && this.limits == limits && Now() == Registry(map[], map[], 0)
    {
      this.limits, sessions, markers, counter := limits, map[], map[], 0;
    }

    /** No two ids share a session object. */
    ghost predicate Valid()
      reads this
    {
      forall a, b :: a in sessions && b in sessions && a != b ==> sessions[a] != sessions[b]
    }

    ghost function Now(): Registry
      reads this, sessions.Values
    {
      Registry(map sid | sid in sessions :: sessions[sid].Now(), markers, counter)
    }

    method ConnectOverCdp(sid: string, times: seq<nat>, answers: bool) returns (reply: Reply)
      requires Valid()
      modifies this
      ensures Valid() && (Now(), reply) == Connected(limits, old(Now()), sid, times, answers)
    {
      hide TabIds;
      if sid in sessions { return Done(sid); }
      SameSize();
      if |sessions| >= limits.sessions { return LimitExceeded; }
      if !answers { return SessionNotFound; }
      var pages := TabIds(times);
      AddSession(sid, pages, FirstOf(pages), false);
      return Done(sid);
    }

    lemma SameSize()
      ensures |Now().sessions| == |sessions|
    {
      assert Now().sessions.Keys == sessions.Keys;
      assert |sessions| == |sessions.Keys| && |Now().sessions| == |Now().sessions.Keys|;
    }

    method LaunchSession(sid: string, reuse: bool, video: bool, starts: bool) returns (reply: Reply)
      requires Valid()
      modifies this
      ensures Valid() && (Now(), reply) == Launched(limits, old(Now()), sid, reuse, video, starts)
    {
      if sid in sessions {
        if reuse { return Done(sid); }
        CloseSession(sid);
      }
      ghost var was := Now();
      assert was == SessionClosed(old(Now()), sid);
      hide SessionClosed;
      SameSize();
      if |sessions| >= limits.sessions { return LimitExceeded; }
      if !starts { return Failed; }
      AddSession(sid, [], None, video);
      return Done(sid);
    }

    method AddSession(sid: string, pages: seq<string>, active: Option<string>, video: bool)
      requires Valid() && sid !in sessions
      modifies this`sessions
      ensures Valid() && Now() == old(Now()).(sessions := old(Now()).sessions[sid := Tabs(pages, active, video)])
    {
      ghost var was := Now().sessions;
      var session := new Session(pages, active, video);
      sessions := sessions[sid := session];
      assert Now().sessions == was[sid := session.Now()];
    }

    method NewPage(sid: string, pageId: string, generated: string, opens: bool) returns (reply: Reply)
      requires Valid()
      modifies if sid in sessions then {sessions[sid]} else {}
      ensures Valid() && (Now(), reply) == PageAdded(limits, old(Now()), sid, pageId, generated, opens)
    {
      if sid !in sessions { return SessionNotFound; }
      var session := sessions[sid];
      if |session.pages| >= limits.pages { return LimitExceeded; }
      if !opens { return Failed; }
      var id := if pageId != "" then pageId else generated;
      if id !in session.pages {
        session.pages := session.pages + [id];
      }
      session.activePageId := Some(id);
      assert Now().sessions == old(Now()).sessions[sid := session.Now()];
      return Done(id);
    }

    method GetPage(sid: string, pageId: string) returns (reply: Reply)
      ensures reply == PageFound(Now(), sid, pageId)
    {
      if sid !in sessions { return SessionNotFound; }
      var session := sessions[sid];
      var id := pageId;
      if id == "" {
        if session.activePageId.None? { return PageNotFound; }
        id := session.activePageId.value;
      }
      if id == "" || id !in session.pages { return PageNotFound; }
      return Done(id);
    }

    /** Deletes while it walks over the markers. */
    method ClearMarkers(pages: set<string>)
      modifies this`markers
      ensures markers == Unmarked(old(markers), pages)
    {
      var left := markers.Keys;
      while left != {}
        invariant left <= old(markers).Keys
        invariant markers == map m | m in old(markers) && (m in left || old(markers)[m] !in pages) :: old(markers)[m]
      {
        var m :| m in left;
        if markers[m] in pages {
          markers := markers - {m};
        }
        left := left - {m};
      }
    }

    method CloseSession(sid: string)
      requires Valid()
      modifies this
      ensures Valid() && Now() == SessionClosed(old(Now()), sid)
      ensures sessions == old(sessions) - {sid}
    {
      if sid in sessions {
        ClearMarkers(set p | p in sessions[sid].pages);
        sessions := sessions - {sid};
      }
    }

    method ClosePage(sid: string, pageId: string, closes: bool) returns (reply: Reply)
      requires Valid()
      modifies this`markers, if sid in sessions then {sessions[sid]} else {}
      ensures Valid() && (Now(), reply) == PageClosed(old(Now()), sid, pageId, closes)
    {
      hide Shrunk, Unmarked, PageFound;
      ghost var was := Now();
      reply := GetPage(sid, pageId);
      if !reply.Done? { return; }
      FoundIsThere(sid, pageId);
      ClearMarkers({reply.id});
      assert Now().sessions == was.sessions;
      if !closes { return Failed; }
      RemovePage(sid, reply.id);
    }

    method RemovePage(sid: string, id: string)
      requires Valid() && sid in sessions
      modifies sessions[sid]
      ensures Valid()
      ensures Now() == old(Now()).(sessions := old(Now()).sessions[sid := Shrunk(old(Now()).sessions[sid], id)])
    {
      hide Shrunk;
      ghost var was := Now().sessions;
      sessions[sid].DeletePage(id);
      assert Now().sessions == was[sid := sessions[sid].Now()];
    }

    lemma FoundIsThere(sid: string, pageId: string)
      ensures PageFound(Now(), sid, pageId).Done? ==> sid in sessions
    {
    }

    /** Finishing a recording closes its page in the same way. */
    method SaveVideo(sid: string, pageId: string, closes: bool) returns (reply: Reply)
      requires Valid()
      modifies this`markers, if sid in sessions then {sessions[sid]} else {}
      ensures Valid() && (Now(), reply) == VideoSaved(old(Now()), sid, pageId, closes)
    {
      hide PageClosed;
      if sid !in sessions { return SessionNotFound; }
      if !sessions[sid].video { return InvalidInput; }
      reply := ClosePage(sid, pageId, closes);
    }

    method SwitchPage(sid: string, pageId: string) returns (reply: Reply)
      requires Valid()
      modifies if sid in sessions then {sessions[sid]} else {}
      ensures Valid() && (Now(), reply) == PageSwitched(old(Now()), sid, pageId)
    {
      if sid !in sessions { return SessionNotFound; }
      if pageId !in sessions[sid].pages { return PageNotFound; }
      sessions[sid].activePageId := Some(pageId);
      assert Now().sessions == old(Now()).sessions[sid := sessions[sid].Now()];
      return Done(pageId);
    }

    method Mark(sid: string, pageId: string, there: bool, time: nat) returns (reply: Reply)
      requires Valid()
      modifies this`markers, this`counter
      ensures Valid() && (Now(), reply) == Marked(limits, old(Now()), sid, pageId, there, time)
    {
      hide PageFound, Named;
      reply := GetPage(sid, pageId);
      if !reply.Done? { return; }
      if !there { return Failed; }
      if |markers| >= limits.markers { return LimitExceeded; }
      ghost var was := Now();
      counter := counter + 1;
      var id := Named("marker", counter, time);
      markers := markers[id := reply.id];
      assert Now().sessions == was.sessions;
      return Done(id);
    }

    method RemoveMarker(id: string)
      requires Valid()
      modifies this`markers
      ensures Valid() && Now() == MarkerRemoved(old(Now()), id)
    {
      if id in markers {
        markers := markers - {id};
      }
    }

    /** The browser reports that a page's main frame went elsewhere. */
    method OnNavigated(pageId: string)
      requires Valid()
      modifies this`markers
      ensures Valid() && Now() == Navigated(old(Now()), pageId)
    {
      ClearMarkers({pageId});
    }
  }

  // ---- what every call keeps --------------------------------------------------------------------

  /** The active page is missing exactly when there are no pages, and is one of them otherwise. */
  ghost predicate Coherent(t: Tabs) {
    && Distinct(t.pages) && "" !in t.pages
    && (t.active == None <==> t.pages == [])
    && (t.active.Some? ==> t.active.value in t.pages)
  }

  ghost predicate IsOpen(r: Registry, page: string) {
    exists sid :: sid in r.sessions && page in r.sessions[sid].pages
  }

  ghost predicate Numbered(id: string, n: nat) { exists time: nat :: id == Named("marker", n, time) }

  ghost predicate Intact(l: Limits, r: Registry) {
    && (forall sid :: sid in r.sessions ==> Coherent(r.sessions[sid]))
    && (forall m :: m in r.markers ==> IsOpen(r, r.markers[m]))
    && (forall m :: m in r.markers ==> exists n :: 1 <= n <= r.counter && Numbered(m, n))
    && |r.sessions| <= l.sessions && |r.markers| <= l.markers
  }

  lemma {:induction false} WithoutRemoves(pages: seq<string>, id: string)
    requires Distinct(pages)
    ensures Distinct(Without(pages, id))
    ensures forall p :: p in Without(pages, id) <==> p in pages && p != id
    decreases |pages|
  {
    if pages != [] {
      var front, last := pages[..|pages| - 1], pages[|pages| - 1];
      assert pages == front + [last];
      DistinctFront(front, last);
      WithoutRemoves(front, id);
      var kept := Without(front, id);
      DistinctFront(kept, last);
      assert Without(pages, id) == if last == id then kept else kept + [last];
    }
  }

  /** Deleting a page and making the first of the others active keeps a session coherent. */
  lemma DeletionIsCoherent(t: Tabs, id: string)
    requires Coherent(t) && id in t.pages
    ensures Coherent(Shrunk(t, id))
  {
    WithoutRemoves(t.pages, id);
    hide Without;
    var pages := Without(t.pages, id);
    assert t.pages != [] && t.active.Some?;
    if t.active != Some(id) {
      assert t.active.value in pages;
    } else if pages != [] {
      assert pages[0] in pages;
      assert pages[0] in t.pages;
    }
  }

  lemma {:induction false} FewerIsSmaller(a: set<string>, b: set<string>)
    requires a <= b
    ensures |a| <= |b|
  {
    if a != {} {
      var x :| x in a;
      FewerIsSmaller(a - {x}, b - {x});
    }
  }

  lemma UnmarkedIsSmaller(markers: map<string, string>, fewer: map<string, string>)
    requires fewer.Keys <= markers.Keys
    ensures |fewer| <= |markers|
  {
    FewerIsSmaller(fewer.Keys, markers.Keys);
    assert |fewer| == |fewer.Keys| && |markers| == |markers.Keys|;
  }

  // Generated ids differ when their numbers do.

  lemma {:induction false} DigitsOnly(s: string)
    requires IsNumeral(s)
    ensures '_' !in s
  {
  }

  lemma DecimalHasNoBar(n: nat)
    ensures '_' !in Decimal(n)
  {
    ValueOfDecimal(n);
    DigitsOnly(Decimal(n));
  }

  lemma SplitOfThree(a: string, b: string, c: string)
    requires '_' !in a && '_' !in b && '_' !in c
    ensures Split(a + "_" + b + "_" + c, '_') == [a, b, c]
  {
    hide Split;
    SplitAround(a + "_" + b, '_', c);
    SplitAround(a, '_', b);
    SplitWhole(a, '_');
    SplitWhole(b, '_');
    SplitWhole(c, '_');
    assert ['_'] == "_";
  }

  lemma NamedParts(prefix: string, n: nat, time: nat)
    requires '_' !in prefix
    ensures Split(Named(prefix, n, time), '_') == [prefix, Decimal(n), Decimal(time)]
  {
    DecimalHasNoBar(n);
    DecimalHasNoBar(time);
    SplitOfThree(prefix, Decimal(n), Decimal(time));
  }

  lemma NumbersSeparate(prefix: string, n: nat, time: nat, n': nat, time': nat)
    requires '_' !in prefix && n != n'
    ensures Named(prefix, n, time) != Named(prefix, n', time')
  {
    NamedParts(prefix, n, time);
    NamedParts(prefix, n', time');
    ValueOfDecimal(n);
    ValueOfDecimal(n');
    hide Decimal, Split, Named;
    assert [prefix, Decimal(n), Decimal(time)][1] == Decimal(n);
    assert [prefix, Decimal(n'), Decimal(time')][1] == Decimal(n');
  }

  lemma TabsAreCoherent(times: seq<nat>)
    ensures Coherent(Tabs(TabIds(times), FirstOf(TabIds(times)), false))
  {
    var pages := TabIds(times);
    forall i, j | 0 <= i < j < |pages| ensures pages[i] != pages[j] {
      NumbersSeparate("tab", i, times[i], j, times[j]);
    }
    forall i | 0 <= i < |pages| ensures pages[i] != "" {
      assert |Named("tab", i, times[i])| >= 4;
    }
  }

  /** A new marker replaces none: its id is not taken. */
  lemma NewMarkerIsNew(l: Limits, r: Registry, time: nat)
    requires Intact(l, r)
    ensures Named("marker", r.counter + 1, time) !in r.markers
  {
    hide Coherent, IsOpen, Named;
    forall m | m in r.markers ensures m != Named("marker", r.counter + 1, time) {
      var n :| 1 <= n <= r.counter && Numbered(m, n);
      var t: nat :| m == Named("marker", n, t);
      NumbersSeparate("marker", n, t, r.counter + 1, time);
    }
  }

  // Each kind of change on its own.

  /** Markers may go, as long as those on pages that are gone do. */
  lemma FewerMarkers(l: Limits, r: Registry, markers: map<string, string>)
    requires Intact(l, r) && markers.Keys <= r.markers.Keys
    requires forall m :: m in markers ==> markers[m] == r.markers[m]
    ensures Intact(l, r.(markers := markers))
  {
    hide Coherent, Numbered;
    UnmarkedIsSmaller(r.markers, markers);
    var r' := r.(markers := markers);
    forall m | m in r'.markers ensures IsOpen(r', r'.markers[m]) {
      assert IsOpen(r, r.markers[m]);
      assert r'.sessions == r.sessions;
    }
  }

  /** A session may change or come when it stays coherent and loses no page that is marked. */
  lemma SessionSet(l: Limits, r: Registry, sid: string, t: Tabs)
    requires Intact(l, r) && Coherent(t) && (sid in r.sessions || |r.sessions| < l.sessions)
    requires sid in r.sessions ==>
               forall m :: m in r.markers && r.markers[m] in r.sessions[sid].pages ==> r.markers[m] in t.pages
    ensures Intact(l, r.(sessions := r.sessions[sid := t]))
  {
    hide Coherent, Numbered;
    var r' := r.(sessions := r.sessions[sid := t]);
    forall m | m in r'.markers ensures IsOpen(r', r'.markers[m]) {
      assert IsOpen(r, r.markers[m]);
      var s :| s in r.sessions && r.markers[m] in r.sessions[s].pages;
      assert s in r'.sessions && r.markers[m] in r'.sessions[s].pages;
    }
    assert r'.sessions.Keys == r.sessions.Keys + {sid};
    assert |r'.sessions| == |r'.sessions.Keys|;
  }

  /** A session may go once no marker is on its pages. */
  lemma SessionUnset(l: Limits, r: Registry, sid: string)
    requires Intact(l, r) && sid in r.sessions
    requires forall m :: m in r.markers ==> r.markers[m] !in r.sessions[sid].pages
    ensures Intact(l, r.(sessions := r.sessions - {sid}))
  {
    hide Coherent, Numbered;
    var r' := r.(sessions := r.sessions - {sid});
    forall m | m in r'.markers ensures IsOpen(r', r'.markers[m]) {
      assert IsOpen(r, r.markers[m]);
      var s :| s in r.sessions && r.markers[m] in r.sessions[s].pages;
      assert s in r'.sessions && r'.sessions[s] == r.sessions[s];
    }
    FewerIsSmaller(r'.sessions.Keys, r.sessions.Keys);
    assert |r'.sessions| == |r'.sessions.Keys| && |r.sessions| == |r.sessions.Keys|;
  }

  lemma SessionGone(l: Limits, r: Registry, sid: string)
    requires Intact(l, r)
    ensures Intact(l, SessionClosed(r, sid))
  {
    if sid in r.sessions {
      var r1 := r.(markers := Unmarked(r.markers, set p | p in r.sessions[sid].pages));
      FewerMarkers(l, r, r1.markers);
      hide Intact;
      SessionUnset(l, r1, sid);
    }
  }

  lemma PageGone(l: Limits, r: Registry, sid: string, pageId: string, closes: bool)
    requires Intact(l, r)
    ensures Intact(l, PageClosed(r, sid, pageId, closes).0)
  {
    var found := PageFound(r, sid, pageId);
    if found.Done? {
      var r1 := r.(markers := Unmarked(r.markers, {found.id}));
      FewerMarkers(l, r, r1.markers);
      if closes {
        var t := r.sessions[sid];
        DeletionIsCoherent(t, found.id);
        WithoutRemoves(t.pages, found.id);
        assert Shrunk(t, found.id).pages == Without(t.pages, found.id);
        hide Coherent, Without, Intact, Shrunk;
        SessionSet(l, r1, sid, Shrunk(t, found.id));
      }
    }
  }

  lemma OpenGoesBySessions(r: Registry, r': Registry, page: string)
    requires r'.sessions == r.sessions
    ensures IsOpen(r', page) <==> IsOpen(r, page)
  {
  }

  lemma MarkersGrow(markers: map<string, string>, id: string, page: string)
    requires id !in markers
    ensures |markers[id := page]| == |markers| + 1
  {
    assert markers[id := page].Keys == markers.Keys + {id};
    assert |markers[id := page]| == |markers[id := page].Keys| && |markers| == |markers.Keys|;
  }

  lemma MarkerSet(l: Limits, r: Registry, id: string, page: string)
    requires Intact(l, r) && Numbered(id, r.counter + 1) && id !in r.markers && IsOpen(r, page)
    requires |r.markers| < l.markers
    ensures var r' := r.(markers := r.markers[id := page], counter := r.counter + 1);
            Intact(l, r') && |r'.markers| == |r.markers| + 1
  {
    MarkersGrow(r.markers, id, page);
    hide Coherent, Numbered, IsOpen;
    var r' := r.(markers := r.markers[id := page], counter := r.counter + 1);
    forall m | m in r'.markers
      ensures IsOpen(r', r'.markers[m]) && exists n :: 1 <= n <= r'.counter && Numbered(m, n)
    {
      OpenGoesBySessions(r, r', r'.markers[m]);
      if m == id {
        assert Numbered(m, r.counter + 1);
      } else {
        assert IsOpen(r, r.markers[m]);
        var n :| 1 <= n <= r.counter && Numbered(m, n);
      }
    }
  }

  lemma FoundIsOpen(r: Registry, sid: string, pageId: string)
    ensures PageFound(r, sid, pageId).Done? ==> IsOpen(r, PageFound(r, sid, pageId).id)
  {
  }

  lemma NamedIsNumbered(n: nat, time: nat)
    ensures Numbered(Named("marker", n, time), n)
  {
  }

  lemma MarkerAdded(l: Limits, r: Registry, sid: string, pageId: string, there: bool, time: nat)
    requires Intact(l, r)
    ensures var (r', reply) := Marked(l, r, sid, pageId, there, time);
            Intact(l, r') && (reply.Done? ==> |r'.markers| == |r.markers| + 1)
  {
    hide Intact, Named, PageFound, IsOpen, Numbered;
    NewMarkerIsNew(l, r, time);
    FoundIsOpen(r, sid, pageId);
    NamedIsNumbered(r.counter + 1, time);
    var found := PageFound(r, sid, pageId);
    if found.Done? && there && |r.markers| < l.markers {
      MarkerSet(l, r, Named("marker", r.counter + 1, time), found.id);
    }
  }

  // ---- main results -----------------------------------------------------------------------------

  datatype Event =
    | Connects(sid: string, times: seq<nat>, answers: bool)
    | Launches(sid: string, reuse: bool, video: bool, starts: bool)
    | AddsPage(sid: string, pageId: string, generated: string, opens: bool)
    | ClosesPage(sid: string, pageId: string, closes: bool)
    | SavesVideo(sid: string, pageId: string, closes: bool)
    | SwitchesPage(sid: string, pageId: string)
    | Marks(sid: string, pageId: string, there: bool, time: nat)
    | RemovesMarker(id: string)
    | Navigates(pageId: string)
    | ClosesSession(sid: string)

  function Step(l: Limits, r: Registry, e: Event): Registry {
    match e
    case Connects(sid, times, answers) => Connected(l, r, sid, times, answers).0
    case Launches(sid, reuse, video, starts) => Launched(l, r, sid, reuse, video, starts).0
    case AddsPage(sid, pageId, generated, opens) => PageAdded(l, r, sid, pageId, generated, opens).0
    case ClosesPage(sid, pageId, closes) => PageClosed(r, sid, pageId, closes).0
    case SavesVideo(sid, pageId, closes) => VideoSaved(r, sid, pageId, closes).0
    case SwitchesPage(sid, pageId) => PageSwitched(r, sid, pageId).0
    case Marks(sid, pageId, there, time) => Marked(l, r, sid, pageId, there, time).0
    case RemovesMarker(id) => MarkerRemoved(r, id)
    case Navigates(pageId) => Navigated(r, pageId)
    case ClosesSession(sid) => SessionClosed(r, sid)
  }

  /** Made-up page ids are never empty. */
  predicate Proper(e: Event) { e.AddsPage? ==> e.generated != "" }

  lemma SessionAdded(l: Limits, r: Registry, sid: string, t: Tabs)
    requires Intact(l, r) && Coherent(t) && sid !in r.sessions && |r.sessions| < l.sessions
    ensures Intact(l, r.(sessions := r.sessions[sid := t]))
  {
    SessionSet(l, r, sid, t);
  }

  lemma PageAddedKeeps(l: Limits, r: Registry, sid: string, pageId: string, generated: string, opens: bool)
    requires Intact(l, r) && generated != ""
    ensures Intact(l, PageAdded(l, r, sid, pageId, generated, opens).0)
  {
    if sid in r.sessions && opens && |r.sessions[sid].pages| < l.pages {
      var t := r.sessions[sid];
      var id := if pageId != "" then pageId else generated;
      var pages := if id in t.pages then t.pages else t.pages + [id];
      var t' := t.(pages := pages, active := Some(id));
      assert Coherent(t);
      assert Coherent(t');
      SessionSet(l, r, sid, t');
    }
  }

  lemma StepKeepsIntact(l: Limits, r: Registry, e: Event)
    requires Intact(l, r) && Proper(e)
    ensures Intact(l, Step(l, r, e))
  {
    hide Intact, Coherent, PageClosed, Marked, SessionClosed, TabIds, PageAdded;
    match e
    case Connects(sid, times, answers) =>
      TabsAreCoherent(times);
      if sid !in r.sessions && |r.sessions| < l.sessions && answers {
        SessionAdded(l, r, sid, Tabs(TabIds(times), FirstOf(TabIds(times)), false));
      }
    case Launches(sid, reuse, video, starts) =>
      SessionGone(l, r, sid);
      LaunchKeeps(l, r, sid, reuse, video, starts);
    case AddsPage(sid, pageId, generated, opens) =>
      PageAddedKeeps(l, r, sid, pageId, generated, opens);
    case ClosesPage(sid, pageId, closes) =>
      PageGone(l, r, sid, pageId, closes);
    case SavesVideo(sid, pageId, closes) =>
      PageGone(l, r, sid, pageId, closes);
    case SwitchesPage(sid, pageId) =>
      SwitchKeeps(l, r, sid, pageId);
    case Marks(sid, pageId, there, time) =>
      MarkerAdded(l, r, sid, pageId, there, time);
    case RemovesMarker(id) =>
      FewerMarkers(l, r, r.markers - {id});
    case Navigates(pageId) =>
      FewerMarkers(l, r, Unmarked(r.markers, {pageId}));
    case ClosesSession(sid) =>
      SessionGone(l, r, sid);
  }

  lemma SwitchKeeps(l: Limits, r: Registry, sid: string, pageId: string)
    requires Intact(l, r)
    ensures Intact(l, PageSwitched(r, sid, pageId).0)
  {
    if sid in r.sessions && pageId in r.sessions[sid].pages {
      assert Coherent(r.sessions[sid]);
      SessionSet(l, r, sid, r.sessions[sid].(active := Some(pageId)));
    }
  }

  lemma LaunchKeeps(l: Limits, r: Registry, sid: string, reuse: bool, video: bool, starts: bool)
    requires Intact(l, r) && Intact(l, SessionClosed(r, sid))
    ensures Intact(l, Launched(l, r, sid, reuse, video, starts).0)
  {
    var r1 := SessionClosed(r, sid);
    assert sid !in r1.sessions;
    assert Coherent(Tabs([], None, video));
    if !(sid in r.sessions && reuse) && |r1.sessions| < l.sessions && starts {
      hide Intact, Coherent, SessionClosed;
      SessionAdded(l, r1, sid, Tabs([], None, video));
    }
  }

  function After(l: Limits, events: seq<Event>): Registry {
    if events == [] then Registry(map[], map[], 0)
    else Step(l, After(l, events[..|events| - 1]), events[|events| - 1])
  }

  /**
   Registry integrity in every reachable state: a session's active page is missing exactly when it has no
   pages and is one of them otherwise, every marker's page belongs to a live session, and neither markers
   nor sessions exceed their limit, whatever the browser fails to do on the way.
   */
  lemma {:induction false} RunIsIntact(l: Limits, events: seq<Event>)
    requires forall n :: 0 <= n < |events| ==> Proper(events[n])
    ensures Intact(l, After(l, events))
    decreases |events|
  {
    if events != [] {
      RunIsIntact(l, events[..|events| - 1]);
      StepKeepsIntact(l, After(l, events[..|events| - 1]), events[|events| - 1]);
    }
  }

  /** In a reachable state a session with pages always answers a request that names none. */
  lemma ActivePageIsFound(l: Limits, r: Registry, sid: string)
    requires Intact(l, r) && sid in r.sessions
    ensures PageFound(r, sid, "") == (match r.sessions[sid].active case Some(id) => Done(id) case None => PageNotFound)
    ensures PageFound(r, sid, "").Done? <==> r.sessions[sid].pages != []
  {
    assert Coherent(r.sessions[sid]);
  }

  // ---- what each call does ----------------------------------------------------------------------

  /** A request that names a page is about that page, and succeeds exactly when the session has it. */
  lemma NamedPageIsFound(r: Registry, sid: string, pageId: string)
    requires sid in r.sessions && pageId != ""
    ensures PageFound(r, sid, pageId).Done? <==> pageId in r.sessions[sid].pages
    ensures PageFound(r, sid, pageId).Done? ==> PageFound(r, sid, pageId).id == pageId
  {
  }

  /** The page that a request is about: the one it names, else the active one. */
  ghost function Target(r: Registry, sid: string, pageId: string): Option<string> {
    if sid !in r.sessions then None
    else if pageId == "" then r.sessions[sid].active
    else if pageId in r.sessions[sid].pages then Some(pageId)
    else None
  }

  lemma FoundIsTheTarget(l: Limits, r: Registry, sid: string, pageId: string)
    requires Intact(l, r)
    ensures PageFound(r, sid, pageId)
         == match Target(r, sid, pageId)
            case Some(id) => Done(id)
            case None => if sid in r.sessions then PageNotFound else SessionNotFound
  {
    if sid in r.sessions {
      assert Coherent(r.sessions[sid]);
    }
  }

  lemma {:induction false} WithoutNone(pages: seq<string>, id: string)
    requires id !in pages
    ensures Without(pages, id) == pages
    decreases |pages|
  {
    if pages != [] {
      WithoutNone(pages[..|pages| - 1], id);
    }
  }

  lemma {:induction false} WithoutAppend(a: seq<string>, b: seq<string>, id: string)
    ensures Without(a + b, id) == Without(a, id) + Without(b, id)
    decreases |b|
  {
    if b == [] {
      assert a + b == a;
    } else {
      assert (a + b)[..|a + b| - 1] == a + b[..|b| - 1];
      WithoutAppend(a, b[..|b| - 1], id);
    }
  }

  lemma WithoutTheMiddle(a: seq<string>, id: string, b: seq<string>)
    requires Distinct(a + [id] + b)
    ensures Without(a + [id] + b, id) == a + b
  {
    var pages := a + [id] + b;
    forall i | 0 <= i < |a| ensures a[i] != id { assert pages[i] == a[i] && pages[|a|] == id; }
    forall i | 0 <= i < |b| ensures b[i] != id { assert pages[|a| + 1 + i] == b[i] && pages[|a|] == id; }
    WithoutAppend(a + [id], b, id);
    WithoutAppend(a, [id], id);
    WithoutNone(a, id);
    WithoutNone(b, id);
    assert Without([id], id) == [];
    assert a + [] == a;
  }

  /**
   Closing a page leaves exactly the other pages of its session, in order; if it was the active one, the
   first of them is active in its stead.  When the browser fails to close it, the session stays as it was.
   */
  lemma ClosingLeavesTheOthers(l: Limits, r: Registry, sid: string, pageId: string, closes: bool,
                               a: seq<string>, id: string, b: seq<string>)
    requires Intact(l, r) && Target(r, sid, pageId) == Some(id) && r.sessions[sid].pages == a + [id] + b
    ensures var (r', reply) := PageClosed(r, sid, pageId, closes); var was := r.sessions[sid];
            var next := if a != [] then Some(a[0]) else if b != [] then Some(b[0]) else None;
            var active := if was.active == Some(id) then next else was.active;
            if closes then reply == Done(id) && r'.sessions == r.sessions[sid := Tabs(a + b, active, was.video)]
            else reply == Failed && r'.sessions == r.sessions
  {
    assert Coherent(r.sessions[sid]);
    FoundIsTheTarget(l, r, sid, pageId);
    WithoutTheMiddle(a, id, b);
    hide Intact, Coherent, PageFound, Target, Without;
  }

  /** A page of the session can be split off, so that the law above speaks of every page that is found. */
  lemma TargetIsAPage(l: Limits, r: Registry, sid: string, pageId: string) returns (a: seq<string>, b: seq<string>)
    requires Intact(l, r) && Target(r, sid, pageId).Some?
    ensures r.sessions[sid].pages == a + [Target(r, sid, pageId).value] + b
  {
    var pages, id := r.sessions[sid].pages, Target(r, sid, pageId).value;
    assert Coherent(r.sessions[sid]);
    var i :| 0 <= i < |pages| && pages[i] == id;
    a, b := pages[..i], pages[i + 1..];
  }

  /** A marker is made on the page that the request is about, unless the limit is reached; nothing else changes. */
  lemma MarkIsOnItsPage(l: Limits, r: Registry, sid: string, pageId: string, there: bool, time: nat)
    requires Intact(l, r)
    ensures var (r', reply) := Marked(l, r, sid, pageId, there, time); var id := Target(r, sid, pageId);
            && r'.sessions == r.sessions
            && (reply.Done? <==> id.Some? && there && |r.markers| < l.markers)
            && (reply.Done? ==> reply.id !in r.markers && r'.markers == r.markers[reply.id := id.value])
            && (!reply.Done? ==> r' == r)
  {
    FoundIsTheTarget(l, r, sid, pageId);
    NewMarkerIsNew(l, r, time);
    hide Intact, PageFound, Target, Named;
  }

  /** A new page comes last and is active; adding one under an id that is there only makes it active. */
  lemma NewPageIsActive(l: Limits, r: Registry, sid: string, pageId: string, generated: string, opens: bool)
    requires sid in r.sessions
    ensures var (r', reply) := PageAdded(l, r, sid, pageId, generated, opens);
            var was := r.sessions[sid];
            && (reply.Done? <==> |was.pages| < l.pages && opens)
            && (reply == LimitExceeded <==> |was.pages| >= l.pages)
            && (!reply.Done? ==> r' == r)
            && (reply.Done? ==>
                  && reply.id == (if pageId == "" then generated else pageId)
                  && r'.markers == r.markers
                  && var pages := if reply.id in was.pages then was.pages else was.pages + [reply.id];
                  && r'.sessions == r.sessions[sid := Tabs(pages, Some(reply.id), was.video)])
  {
  }

  /** Switching makes a page of the session active, and changes nothing else. */
  lemma SwitchingActivates(r: Registry, sid: string, pageId: string)
    ensures var (r', reply) := PageSwitched(r, sid, pageId);
            && (reply.Done? <==> sid in r.sessions && pageId in r.sessions[sid].pages)
            && (reply.Done? ==>
                  r'.sessions == r.sessions[sid := Tabs(r.sessions[sid].pages, Some(pageId), r.sessions[sid].video)])
            && (!reply.Done? ==> r' == r)
            && r'.markers == r.markers
  {
  }

  /** Closing a session drops it and the markers on its pages. */
  lemma ClosingDropsItsMarkers(r: Registry, sid: string)
    ensures var r' := SessionClosed(r, sid);
            && r'.sessions == r.sessions - {sid}
            && (forall m :: m in r'.markers <==>
                  m in r.markers && !(sid in r.sessions && r.markers[m] in r.sessions[sid].pages))
            && (forall m :: m in r'.markers ==> r'.markers[m] == r.markers[m])
  {
  }

  lemma TakenOut<T>(all: map<string, T>, key: string, value: T)
    ensures (all - {key})[key := value] == all[key := value]
    ensures |all - {key}| + (if key in all then 1 else 0) == |all|
  {
    assert (all - {key}).Keys == all.Keys - {key};
    assert |all - {key}| == |(all - {key}).Keys| && |all| == |all.Keys|;
  }

  /** A launch without reuse starts without pages, once there is room when its old session is gone. */
  lemma LaunchStartsAfresh(l: Limits, r: Registry, sid: string, reuse: bool, video: bool, starts: bool)
    ensures var (r', reply) := Launched(l, r, sid, reuse, video, starts);
            var open := if sid in r.sessions then |r.sessions| else |r.sessions| + 1;
            if sid in r.sessions && reuse then r' == r && reply == Done(sid)
            else
              && r'.sessions == (if starts && open <= l.sessions then r.sessions[sid := Tabs([], None, video)]
                                 else r.sessions - {sid})
              && r'.markers == SessionClosed(r, sid).markers
              && (reply == Done(sid) <==> starts && open <= l.sessions)
              && (reply == LimitExceeded <==> open > l.sessions)
  {
    ClosingDropsItsMarkers(r, sid);
    TakenOut(r.sessions, sid, Tabs([], None, video));
    hide SessionClosed;
  }

  lemma TabsByNumber(times: seq<nat>)
    ensures |TabIds(times)| == |times|
    ensures forall i :: 0 <= i < |times| ==> TabIds(times)[i] == "tab_" + Decimal(i) + "_" + Decimal(times[i])
  {
    hide Decimal;
    assert "tab" + "_" == "tab_";
  }

  /** Attaching takes over every tab, in order and under its number, with the first one active. */
  lemma ConnectingTakesAllTabs(l: Limits, r: Registry, sid: string, times: seq<nat>, answers: bool)
    ensures var (r', reply) := Connected(l, r, sid, times, answers);
            if sid in r.sessions || |r.sessions| >= l.sessions || !answers then
              && r' == r
              && reply == (if sid in r.sessions then Done(sid)
                           else if |r.sessions| >= l.sessions then LimitExceeded else SessionNotFound)
            else
              && reply == Done(sid) && r'.markers == r.markers
              && sid in r'.sessions && var t := r'.sessions[sid];
              && r'.sessions == r.sessions[sid := t]
              && |t.pages| == |times| && !t.video
              && (forall i :: 0 <= i < |times| ==> t.pages[i] == "tab_" + Decimal(i) + "_" + Decimal(times[i]))
              && t.active == (if times == [] then None else Some(t.pages[0]))
  {
    TabsByNumber(times);
    hide Decimal, TabIds;
  }

  /** Only a session that records has a video to finish, and finishing one closes the page. */
  lemma SavingClosesThePage(r: Registry, sid: string, pageId: string, closes: bool)
    ensures var (r', reply) := VideoSaved(r, sid, pageId, closes);
            if sid in r.sessions && r.sessions[sid].video then (r', reply) == PageClosed(r, sid, pageId, closes)
            else r' == r && reply == if sid in r.sessions then InvalidInput else SessionNotFound
  {
  }

  /** The session that a call is for. */
  function SessionOf(e: Event): Option<string> {
    match e
    case RemovesMarker(_) => None
    case Navigates(_) => None
    case _ => Some(e.sid)
  }

  lemma ClosingChangesOne(r: Registry, sid: string, pageId: string, closes: bool)
    ensures var r' := PageClosed(r, sid, pageId, closes).0;
            r'.sessions == r.sessions || (sid in r.sessions && r'.sessions == r.sessions[sid := r'.sessions[sid]])
  {
    hide Unmarked, Shrunk;
  }

  /** No call touches the session of another id. */
  lemma OtherSessionsStay(l: Limits, r: Registry, e: Event, sid: string)
    requires Intact(l, r) && SessionOf(e) != Some(sid)
    ensures sid in Step(l, r, e).sessions <==> sid in r.sessions
    ensures sid in r.sessions ==> Step(l, r, e).sessions[sid] == r.sessions[sid]
  {
    hide Connected, Launched, PageAdded, PageClosed, VideoSaved, PageSwitched, Marked, SessionClosed;
    hide Intact, Target, Decimal, Unmarked;
    match e
    case Connects(s, times, answers) => ConnectingTakesAllTabs(l, r, s, times, answers);
    case Launches(s, reuse, video, starts) => LaunchStartsAfresh(l, r, s, reuse, video, starts);
    case AddsPage(s, pageId, generated, opens) => AddingChangesOne(l, r, s, pageId, generated, opens);
    case ClosesPage(s, pageId, closes) => ClosingChangesOne(r, s, pageId, closes);
    case SavesVideo(s, pageId, closes) =>
      ClosingChangesOne(r, s, pageId, closes);
      SavingClosesThePage(r, s, pageId, closes);
    case SwitchesPage(s, pageId) => SwitchingActivates(r, s, pageId);
    case Marks(s, pageId, there, time) => MarkIsOnItsPage(l, r, s, pageId, there, time);
    case ClosesSession(s) => ClosingDropsItsMarkers(r, s);
    case _ =>
  }

  lemma AddingChangesOne(l: Limits, r: Registry, sid: string, pageId: string, generated: string, opens: bool)
    ensures var r' := PageAdded(l, r, sid, pageId, generated, opens).0;
            && r'.markers == r.markers
            && (r'.sessions == r.sessions || (sid in r.sessions && r'.sessions == r.sessions[sid := r'.sessions[sid]]))
  {
  }

  /** The calls that take a marker away: those that close its page or session, and those that name it or its page. */
  ghost predicate Drops(r: Registry, e: Event, m: string)
    requires m in r.markers
  {
    match e
    case ClosesPage(sid, pageId, _) => Target(r, sid, pageId) == Some(r.markers[m])
    case SavesVideo(sid, pageId, _) =>
      sid in r.sessions && r.sessions[sid].video && Target(r, sid, pageId) == Some(r.markers[m])
    case ClosesSession(sid) => sid in r.sessions && r.markers[m] in r.sessions[sid].pages
    case Launches(sid, reuse, _, _) => sid in r.sessions && !reuse && r.markers[m] in r.sessions[sid].pages
    case RemovesMarker(id) => id == m
    case Navigates(pageId) => r.markers[m] == pageId
    case _ => false
  }

  /** Closing a page leaves no marker on it, and every marker on another page. */
  lemma ClosingClearsItsMarkersOnly(l: Limits, r: Registry, sid: string, pageId: string, closes: bool, m: string)
    requires Intact(l, r)
    ensures var r' := PageClosed(r, sid, pageId, closes).0;
            && (m in r'.markers <==> m in r.markers && Target(r, sid, pageId) != Some(r.markers[m]))
            && (m in r'.markers ==> r'.markers[m] == r.markers[m])
  {
    FoundIsTheTarget(l, r, sid, pageId);
    hide Target, PageFound, Intact, Shrunk;
  }

  /** Every marker stays, on its page, through every call but those; only making one adds one. */
  lemma MarkersAfter(l: Limits, r: Registry, e: Event, m: string)
    requires Intact(l, r)
    ensures m in r.markers ==> (m in Step(l, r, e).markers <==> !Drops(r, e, m))
    ensures m in r.markers && m in Step(l, r, e).markers ==> Step(l, r, e).markers[m] == r.markers[m]
    ensures m !in r.markers && m in Step(l, r, e).markers ==>
              e.Marks? && Target(r, e.sid, e.pageId) == Some(Step(l, r, e).markers[m])
  {
    hide Connected, Launched, PageAdded, PageClosed, VideoSaved, PageSwitched, Marked, SessionClosed;
    hide Intact, Target, Decimal;
    match e
    case Connects(s, times, answers) => ConnectingTakesAllTabs(l, r, s, times, answers);
    case Launches(s, reuse, video, starts) =>
      LaunchStartsAfresh(l, r, s, reuse, video, starts);
      ClosingDropsItsMarkers(r, s);
    case AddsPage(s, pageId, generated, opens) => AddingChangesOne(l, r, s, pageId, generated, opens);
    case ClosesPage(s, pageId, closes) => ClosingClearsItsMarkersOnly(l, r, s, pageId, closes, m);
    case SavesVideo(s, pageId, closes) =>
      ClosingClearsItsMarkersOnly(l, r, s, pageId, closes, m);
      SavingClosesThePage(r, s, pageId, closes);
    case SwitchesPage(s, pageId) => SwitchingActivates(r, s, pageId);
    case Marks(s, pageId, there, time) => MarkIsOnItsPage(l, r, s, pageId, there, time);
    case ClosesSession(s) => ClosingDropsItsMarkers(r, s);
    case _ =>
  }
}
