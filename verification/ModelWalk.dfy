/** `fetch_chatgpt_models`: the bounded cursor walk over a paged model list.

    The server is an adversary: its answer to a call may depend on every cursor
    sent so far. */
module ModelWalk {
  import opened Wrappers

  const MAX_PAGES := 50
  const MAX_MODELS := 1000

  datatype Model = Model(id: string, model: string, displayName: string, isDefault: bool)

  /** The fields of one item; `None` where the field is absent or of the wrong type. */
  datatype Item = Item(id: Option<string>, model: Option<string>, displayName: Option<string>, hidden: Option<bool>,
                       modalities: Option<seq<Option<string>>>, isDefault: Option<bool>)

  datatype NextCursor = Absent | Null | Text(text: string) | Other

  datatype Response = Response(data: Option<seq<Item>>, nextCursor: NextCursor)

  datatype RpcError = RpcError

  datatype WalkError = Rpc | InvalidResponse | CursorLoop | TooManyPages | TooManyModels

  type Cursor = Option<string>

  /** Answers the last cursor of the history of cursors sent. */
  type Server = seq<Cursor> -> Result<Response, RpcError>

  // ---- One page

  predicate WellFormed(item: Item) {
    item.id.Some? && item.model.Some? && item.displayName.Some? && item.hidden.Some?
  }

  predicate Listed(item: Item)
    requires WellFormed(item)
  {
    !item.hidden.value && item.modalities.Some? && Some("text") in item.modalities.value
  }

  function Project(item: Item): Model
    requires WellFormed(item)
  {
    Model(item.id.value, item.model.value, item.displayName.value, item.isDefault == Some(true))
  }

  /** The visible text-capable models of a page, in page order. */
  function Visible(data: seq<Item>): (models: seq<Model>)
    requires forall i :: 0 <= i < |data| ==> WellFormed(data[i])
    ensures |models| <= |data|
  {
    if data == [] then []
    else
      var last := data[|data| - 1];
      Visible(data[..|data| - 1]) + if Listed(last) then [Project(last)] else []
  }

  lemma {:induction false} VisibleAppend(data: seq<Item>, last: Item, m: Model)
    requires WellFormed(last) && forall i :: 0 <= i < |data| ==> WellFormed(data[i])
    ensures forall i :: 0 <= i < |data + [last]| ==> WellFormed((data + [last])[i])
    ensures m in Visible(data + [last]) <==> m in Visible(data) || (Listed(last) && m == Project(last))
  {
    assert (data + [last])[..|data|] == data;
  }

  /** A model is listed exactly for an item that is not hidden and takes text, as that item describes it;
      it is the default only where the item says so. */
  lemma {:induction false} VisibleExactly(data: seq<Item>, m: Model)
    requires forall i :: 0 <= i < |data| ==> WellFormed(data[i])
    ensures m in Visible(data) <==>
            exists i :: 0 <= i < |data|
              && data[i].hidden == Some(false)
              && data[i].modalities.Some? && (exists k :: 0 <= k < |data[i].modalities.value|
                                                       && data[i].modalities.value[k] == Some("text"))
              && data[i].id == Some(m.id) && data[i].model == Some(m.model)
              && data[i].displayName == Some(m.displayName)
              && (m.isDefault <==> data[i].isDefault == Some(true))
    decreases |data|
  {
    if data != [] {
      var rest, last := data[..|data| - 1], data[|data| - 1];
      assert data == rest + [last];
      VisibleExactly(rest, m);
      VisibleAppend(rest, last, m);
      ProjectExactly(last, m);
      assert forall i :: 0 <= i < |rest| ==> rest[i] == data[i];
    }
  }

  lemma ProjectExactly(item: Item, m: Model)
    requires WellFormed(item)
    ensures Listed(item) && m == Project(item) <==>
            && item.hidden == Some(false)
            && item.modalities.Some? && (exists k :: 0 <= k < |item.modalities.value|
                                                  && item.modalities.value[k] == Some("text"))
            && item.id == Some(m.id) && item.model == Some(m.model) && item.displayName == Some(m.displayName)
            && (m.isDefault <==> item.isDefault == Some(true))
  {
  }

  predicate Ends(next: NextCursor) {
    next == Absent || next == Null
  }

  predicate Continues(next: NextCursor) {
    next.Text? && next.text != ""
  }

  // ---- Whole walks

  /** The models gathered over the pages answered to `calls`, while they are good. */
  function Collected(server: Server, calls: seq<Cursor>): seq<Model>
    decreases |calls|, 1
  {
    if calls == [] then []
    else
      var before := Collected(server, calls[..|calls| - 1]);
      if PageGood(server, calls) then before + Visible(server(calls).value.data.value) else before
  }

  /** The page answered to the last of `calls` is well formed and fits the model limit. */
  predicate PageGood(server: Server, calls: seq<Cursor>)
    requires calls != []
    decreases |calls|, 0
  {
    var answer := server(calls);
    && answer.Ok? && answer.value.data.Some?
    && var data := answer.value.data.value;
    && |Collected(server, calls[..|calls| - 1])| + |data| <= MAX_MODELS
    && forall i :: 0 <= i < |data| ==> WellFormed(data[i])
  }

  /** Every page before the last is good and names the cursor of the next call. */
  ghost predicate Linked(server: Server, calls: seq<Cursor>) {
    && calls != [] && calls[0] == None
    && forall i {:trigger calls[..i]} :: 1 <= i < |calls| ==>
         && PageGood(server, calls[..i])
         && Continues(server(calls[..i]).value.nextCursor)
         && calls[i] == Some(server(calls[..i]).value.nextCursor.text)
  }

  ghost predicate Distinct(calls: seq<Cursor>) {
    forall i, j :: 0 <= i < j < |calls| ==> calls[i] != calls[j]
  }

  /** A linked walk whose last page is good and ends the list. */
  ghost predicate Complete(server: Server, calls: seq<Cursor>) {
    && Linked(server, calls)
    && PageGood(server, calls)
    && Ends(server(calls).value.nextCursor)
  }

  /** What each outcome says about the calls that were made. */
  ghost predicate Verdict(server: Server, calls: seq<Cursor>, outcome: Result<seq<Model>, WalkError>) {
    && Linked(server, calls) && Distinct(calls) && |calls| <= MAX_PAGES
    && var answer := server(calls);
    match outcome
    case Ok(models) => Complete(server, calls) && models == Collected(server, calls) && |models| <= MAX_MODELS
    case Err(Rpc) => answer.Err?
    case Err(TooManyModels) =>
      answer.Ok? && answer.value.data.Some?
      && |Collected(server, calls[..|calls| - 1])| + |answer.value.data.value| > MAX_MODELS
    case Err(InvalidResponse) =>
      && answer.Ok?
      && (answer.value.data.Some? ==>
         |Collected(server, calls[..|calls| - 1])| + |answer.value.data.value| <= MAX_MODELS)
      && (PageGood(server, calls) ==> !Ends(answer.value.nextCursor) && !Continues(answer.value.nextCursor))
    case Err(CursorLoop) =>
      PageGood(server, calls) && Continues(answer.value.nextCursor) && Some(answer.value.nextCursor.text) in calls
    case Err(TooManyPages) =>
      PageGood(server, calls) && Continues(answer.value.nextCursor) && |calls| == MAX_PAGES
  }

  /** Appends the visible models of one page, stopping at the first malformed item. */
  method AppendPage(data: seq<Item>, before: seq<Model>) returns (r: Result<seq<Model>, WalkError>)
    ensures r.Ok? <==> forall i :: 0 <= i < |data| ==> WellFormed(data[i])
    ensures r.Ok? ==> r.value == before + Visible(data)
    ensures r.Err? ==> r.error == InvalidResponse
  {
    var candidates := before;
    for i := 0 to |data|
      invariant forall k :: 0 <= k < i ==> WellFormed(data[k])
      invariant candidates == before + Visible(data[..i])
    {
      if !WellFormed(data[i]) {
        return Err(InvalidResponse);
      }
      assert data[..i + 1][..i] == data[..i];
      if Listed(data[i]) {
        candidates := candidates + [Project(data[i])];
      }
    }
    assert data[..|data|] == data;
    return Ok(candidates);
  }

  /** At most fifty calls, no cursor sent twice, and the outcome means what `Verdict` says. */
  method FetchChatgptModels(server: Server) returns (outcome: Result<seq<Model>, WalkError>, calls: seq<Cursor>)
    ensures Verdict(server, calls, outcome)
  {
    outcome := Err(TooManyPages);
    calls := [];
    var cursor: Cursor := None;
    var seenCursors: set<string> := {};
    var candidates: seq<Model> := [];
    var pageIndex := 0;
    while pageIndex < MAX_PAGES
      invariant |calls| == pageIndex < MAX_PAGES
      invariant Linked(server, calls + [cursor]) && Distinct(calls + [cursor])
      invariant forall c :: c in seenCursors <==> Some(c) in calls + [cursor]
      invariant candidates == Collected(server, calls)
    {
      ghost var earlier := calls;
      calls := calls + [cursor];
      assert calls[..|calls| - 1] == earlier;
      var answer := server(calls);
      if answer.Err? {
        return Err(Rpc), calls;
      }
      var response := answer.value;
      if response.data.None? {
        return Err(InvalidResponse), calls;
      }
      if |candidates| + |response.data.value| > MAX_MODELS {
        return Err(TooManyModels), calls;
      }
      var appended := AppendPage(response.data.value, candidates);
      if appended.Err? {
        return Err(InvalidResponse), calls;
      }
      candidates := appended.value;
      if !Ends(response.nextCursor) && !Continues(response.nextCursor) {
        return Err(InvalidResponse), calls;
      }
      if Ends(response.nextCursor) {
        return Ok(candidates), calls;
      }
      var next := response.nextCursor.text;
      if next in seenCursors {
        return Err(CursorLoop), calls;
      }
      if pageIndex + 1 == MAX_PAGES {
        return Err(TooManyPages), calls;
      }
      LinkExtends(server, calls, next);
      seenCursors := seenCursors + {next};
      cursor := Some(next);
      pageIndex := pageIndex + 1;
    }
    assert false;
  }

  /** What the first page makes of the walk: a list without a next cursor is the whole answer, an empty or
      other cursor is invalid, a text is asked for next, and more than a thousand items are too many; fifty
      pages are asked for at most. */
  lemma FirstPage(server: Server, data: seq<Item>, next: NextCursor, calls: seq<Cursor>,
                  outcome: Result<seq<Model>, WalkError>)
    requires server([None]) == Ok(Response(Some(data), next)) && Verdict(server, calls, outcome)
    requires forall i :: 0 <= i < |data| ==> WellFormed(data[i])
    ensures |data| > 1000 ==> calls == [None] && outcome == Err(TooManyModels)
    ensures |data| <= 1000 && next in {Absent, Null} ==> calls == [None] && outcome == Ok(Visible(data))
    ensures |data| <= 1000 && next in {Other, Text("")} ==> calls == [None] && outcome == Err(InvalidResponse)
    ensures |data| <= 1000 && next.Text? && next.text != "" ==> |calls| >= 2 && calls[1] == Some(next.text)
    ensures |calls| <= 50 && (outcome == Err(TooManyPages) ==> |calls| == 50)
  {
    FirstIsGood(server, data, next);
    if |calls| == 1 {
      assert calls == [None];
      OnePage(server, data, next, outcome);
    } else {
      assert calls[..1] == [None];
      assert PageGood(server, calls[..1]);
    }
  }

  lemma FirstIsGood(server: Server, data: seq<Item>, next: NextCursor)
    requires server([None]) == Ok(Response(Some(data), next))
    requires forall i :: 0 <= i < |data| ==> WellFormed(data[i])
    ensures PageGood(server, [None]) <==> |data| <= 1000
    ensures Collected(server, [None][..0]) == []
    ensures |data| <= 1000 ==> Collected(server, [None]) == Visible(data)
  {
    var first: seq<Cursor> := [None];
    assert first[..0] == [];
    assert [] + Visible(data) == Visible(data);
  }

  lemma OnePage(server: Server, data: seq<Item>, next: NextCursor, outcome: Result<seq<Model>, WalkError>)
    requires server([None]) == Ok(Response(Some(data), next)) && Verdict(server, [None], outcome)
    requires PageGood(server, [None]) <==> |data| <= 1000
    requires Collected(server, [None][..0]) == []
    requires |data| <= 1000 ==> Collected(server, [None]) == Visible(data)
    ensures |data| > 1000 ==> outcome == Err(TooManyModels)
    ensures |data| <= 1000 && next in {Absent, Null} ==> outcome == Ok(Visible(data))
    ensures |data| <= 1000 && next in {Other, Text("")} ==> outcome == Err(InvalidResponse)
    ensures outcome != Err(TooManyPages) && (|data| > 1000 || !next.Text? || next.text == "")
  {
  }

  lemma LinkExtends(server: Server, calls: seq<Cursor>, next: string)
    requires Linked(server, calls) && PageGood(server, calls)
    requires server(calls).value.nextCursor == Text(next) && next != ""
    ensures Linked(server, calls + [Some(next)])
  {
    var longer := calls + [Some(next)];
    forall i {:trigger longer[..i]} | 1 <= i < |longer|
      ensures PageGood(server, longer[..i]) && Continues(server(longer[..i]).value.nextCursor)
      ensures longer[i] == Some(server(longer[..i]).value.nextCursor.text)
    {
      if i < |calls| {
        assert longer[..i] == calls[..i];
      } else {
        assert longer[..i] == calls;
      }
    }
  }

  // ---- Servers that are a function of the cursor

  type Pages = Cursor -> Result<Response, RpcError>

  function Stateless(page: Pages): Server {
    (calls: seq<Cursor>) => if calls == [] then Err(RpcError) else page(calls[|calls| - 1])
  }

  /** Two walks of one server agree as far as both go. */
  lemma {:induction false} WalksAgree(server: Server, a: seq<Cursor>, b: seq<Cursor>, n: nat)
    requires Linked(server, a) && Linked(server, b)
    requires n <= |a| && n <= |b|
    ensures a[..n] == b[..n]
  {
    if n > 0 {
      WalksAgree(server, a, b, n - 1);
      assert a[..n] == a[..n - 1] + [a[n - 1]] && b[..n] == b[..n - 1] + [b[n - 1]];
    }
  }

  /** A stateless list that ends never names a cursor twice on the way. */
  lemma CompleteWalkIsDistinct(page: Pages, calls: seq<Cursor>)
    requires Complete(Stateless(page), calls)
    ensures Distinct(calls)
  {
    forall i, j | 0 <= i < j < |calls| ensures calls[i] != calls[j] {
      if calls[i] == calls[j] {
        RepeatNeverEnds(page, calls, i, j);
        assert false;
      }
    }
  }

  lemma RepeatNeverEnds(page: Pages, calls: seq<Cursor>, i: nat, j: nat)
    requires Linked(Stateless(page), calls)
    requires i < j < |calls| && calls[i] == calls[j]
    ensures Stateless(page)(calls).Ok? && Continues(Stateless(page)(calls).value.nextCursor)
  {
    var last := |calls| - 1;
    var twin := i + (last - j);
    RepeatPropagates(page, calls, i, j, last - j);
    assert calls[..twin + 1][twin] == calls[twin];
  }

  lemma {:induction false} RepeatPropagates(page: Pages, calls: seq<Cursor>, i: nat, j: nat, k: nat)
    requires Linked(Stateless(page), calls)
    requires i < j && j + k < |calls| && calls[i] == calls[j]
    ensures calls[i + k] == calls[j + k]
  {
    if k > 0 {
      RepeatPropagates(page, calls, i, j, k - 1);
      assert calls[..i + k][i + k - 1] == calls[i + k - 1];
      assert calls[..j + k][j + k - 1] == calls[j + k - 1];
    }
  }

  /** The walk of a stateless server succeeds exactly when its chain of pages ends within
      the limits, and then yields the visible models of all pages in order.  Nothing about
      repeated cursors needs to be asked: an ending chain has none. */
  lemma StatelessWalk(page: Pages, calls: seq<Cursor>, outcome: Result<seq<Model>, WalkError>)
    requires Verdict(Stateless(page), calls, outcome)
    ensures outcome.Ok? <==> exists chain :: Complete(Stateless(page), chain) && |chain| <= MAX_PAGES
    ensures forall chain :: Complete(Stateless(page), chain) && |chain| <= MAX_PAGES ==>
              outcome == Ok(Collected(Stateless(page), chain))
  {
    var server := Stateless(page);
    forall chain | Complete(server, chain) && |chain| <= MAX_PAGES
      ensures outcome == Ok(Collected(server, chain))
    {
      ChainDecidesOutcome(page, calls, outcome, chain);
    }
  }

  lemma ChainDecidesOutcome(page: Pages, calls: seq<Cursor>, outcome: Result<seq<Model>, WalkError>, chain: seq<Cursor>)
    requires Verdict(Stateless(page), calls, outcome)
    requires Complete(Stateless(page), chain) && |chain| <= MAX_PAGES
    ensures outcome == Ok(Collected(Stateless(page), chain))
  {
    var server := Stateless(page);
    NotLonger(server, calls, chain);
    WalksAgree(server, calls, chain, |calls|);
    assert calls[..|calls|] == calls && chain[..|chain|] == chain;
    if |calls| < |chain| {
      ShorterIsNoVerdict(page, calls, outcome, chain);
    }
  }

  lemma NotLonger(server: Server, calls: seq<Cursor>, chain: seq<Cursor>)
    requires Linked(server, calls) && Complete(server, chain)
    ensures |calls| <= |chain|
  {
    if |calls| > |chain| {
      LongerWalkGoesOn(server, calls, chain);
    }
  }

  /** A walk of a server whose chain ends does not stop before that end. */
  lemma ShorterIsNoVerdict(page: Pages, calls: seq<Cursor>, outcome: Result<seq<Model>, WalkError>, chain: seq<Cursor>)
    requires Linked(Stateless(page), calls) && |calls| < |chain| <= MAX_PAGES && Complete(Stateless(page), chain)
    ensures !Verdict(Stateless(page), calls, outcome)
  {
    LongerWalkGoesOn(Stateless(page), chain, calls);
    CompleteWalkIsDistinct(page, chain);
    NextIsNew(chain, calls);
  }

  lemma NextIsNew(chain: seq<Cursor>, calls: seq<Cursor>)
    requires Distinct(chain) && |calls| < |chain| && chain[..|calls|] == calls
    ensures chain[|calls|] !in calls
  {
    assert forall i :: 0 <= i < |calls| ==> calls[i] == chain[i];
  }

  lemma {:induction false} LongerWalkGoesOn(server: Server, longer: seq<Cursor>, shorter: seq<Cursor>)
    requires Linked(server, longer) && Linked(server, shorter) && |longer| > |shorter|
    ensures PageGood(server, shorter) && Continues(server(shorter).value.nextCursor)
    ensures longer[..|shorter|] == shorter
    ensures longer[|shorter|] == Some(server(shorter).value.nextCursor.text)
  {
    WalksAgree(server, longer, shorter, |shorter|);
    assert shorter[..|shorter|] == shorter;
  }
}
