/** `FusefyAPITools.get_api_documentation` and `list_available_endpoints`:
    fetch the upstream OpenAPI 3 document and group its paths into categories
    by the first tag of each path's first operation.

    The document is typed after the Paths Object and Operation Object of the
    OpenAPI Specification. Dicts whose iteration order matters are ordered
    sequences of (key, value) pairs, in document order. */
module EndpointCatalog {
  import opened Basics
  import opened Text
  import FusefyApi

  const DefaultCategory: string := "general"
  const AuthenticationNote: string := "JWT token required in 'token' header"

  /** The members of an Operation Object that the catalog reads. An absent
      `tags`, `security` or `parameters` is the empty list; `parameterNames`
      holds the `name` of each Parameter Object (None when it has none). */
  datatype OperationObject = OperationObject(
    tags: seq<string>,
    summary: Option<string>,
    description: Option<string>,
    security: seq<Json>,
    parameterNames: seq<Option<string>>,
    requestBody: Option<Json>)

  /** The value under one key of a Path Item Object. Values under keys other
      than get/post/put/delete are never read. */
  datatype FieldValue = ObjectValue(op: OperationObject) | NonObjectValue

  type PathItem = seq<(string, FieldValue)>

  /** A decoded document: its top-level `error` member, if any, and its
      `paths` (absent paths read as none). */
  datatype ApiDocument = ApiDocument(error: Option<Json>, paths: seq<(string, PathItem)>)

  /** `paths` and each path item are dicts: `response.json()` keeps one
      entry per key. */
  predicate IsDict(d: ApiDocument) {
    && UniqueKeys(d.paths)
    && forall p :: 0 <= p < |d.paths| ==> UniqueKeys(d.paths[p].1)
  }

  /** The documents `response.json()` can return. */
  type Document = d: ApiDocument | IsDict(d) witness ApiDocument(None, [])

  /** How the GET of the documentation URL ended: a status with the outcome of
      `response.json()`, or the message of the exception raised. */
  datatype DocsExchange =
    | DocsReply(status: int, body: Result<Document, string>)
    | DocsRaised(message: string)

  /** The dict `get_api_documentation` returns: the document, or
      `{"error": message}` (a Failure). It never raises. */
  function GetApiDocumentation(x: DocsExchange): (r: Result<Document, string>)
    ensures r.Success? <==> x.DocsReply? && x.status == 200 && x.body.Success?
    ensures r.Success? ==> r.value == x.body.value
    ensures x.DocsReply? && x.status != 200 ==>
              r == Failure("Failed to fetch API docs: " + IntToString(x.status))
    ensures x.DocsReply? && x.status == 200 && x.body.Failure? ==>
              r == Failure("Error fetching API documentation: " + x.body.error)
    ensures x.DocsRaised? ==> r == Failure("Error fetching API documentation: " + x.message)
  {
    match x
    case DocsRaised(message) => Failure("Error fetching API documentation: " + message)
    case DocsReply(status, body) =>
      if status != 200 then Failure("Failed to fetch API docs: " + IntToString(status))
      else match body
        case Success(doc) => Success(doc)
        case Failure(message) => Failure("Error fetching API documentation: " + message)
  }

  predicate IsOperationKey(key: string) {
    key in ["get", "post", "put", "delete"]
  }

  /** Every value under an operation key is an object; otherwise the Python
      code raises AttributeError when it calls `details.get`. */
  predicate WellFormedItem(item: PathItem) {
    forall i :: 0 <= i < |item| && IsOperationKey(item[i].0) ==> item[i].1.ObjectValue?
  }

  predicate WellFormedPaths(paths: seq<(string, PathItem)>) {
    forall p :: 0 <= p < |paths| ==> WellFormedItem(paths[p].1)
  }

  /** The position of the first get/post/put/delete entry of a path item. */
  function FirstOperationIndex(item: PathItem): (r: Option<nat>)
    ensures r.None? <==> forall j :: 0 <= j < |item| ==> !IsOperationKey(item[j].0)
    ensures r.Some? ==> r.value < |item| && IsOperationKey(item[r.value].0)
    ensures r.Some? ==> forall j :: 0 <= j < r.value ==> !IsOperationKey(item[j].0)
    decreases |item|
  {
    if |item| == 0 then None
    else if IsOperationKey(item[0].0) then Some(0)
    else match FirstOperationIndex(item[1..])
      case None => None
      case Some(k) => Some(k + 1)
  }

  /** The category of a path: the first tag of its first operation entry,
      "general" when that entry has no tags or there is no operation. */
  function CategoryOf(item: PathItem): (r: string)
    requires WellFormedItem(item)
    ensures || r == DefaultCategory
            || exists k :: && 0 <= k < |item| && IsOperationKey(item[k].0)
                           && |item[k].1.op.tags| > 0 && r == item[k].1.op.tags[0]
  {
    match FirstOperationIndex(item)
    case None => DefaultCategory
    case Some(k) =>
      var tags := item[k].1.op.tags;
      if |tags| > 0 then tags[0] else DefaultCategory
  }

  /** The scan for a category stops at the first operation entry, tagged or
      not: nothing after it can change the category. */
  lemma CategoryIgnoresLaterEntries(prefix: PathItem, rest: PathItem)
    requires WellFormedItem(prefix + rest)
    requires exists j :: 0 <= j < |prefix| && IsOperationKey(prefix[j].0)
    ensures WellFormedItem(prefix)
    ensures CategoryOf(prefix + rest) == CategoryOf(prefix)
  {
    assert forall j :: 0 <= j < |prefix| ==> (prefix + rest)[j] == prefix[j];
    assert FirstOperationIndex(prefix + rest) == FirstOperationIndex(prefix);
  }

  /** A path item without get/post/put/delete entries is "general". */
  lemma CategoryWithoutOperations(item: PathItem)
    requires forall j :: 0 <= j < |item| ==> !IsOperationKey(item[j].0)
    ensures CategoryOf(item) == DefaultCategory
  {
  }

  /** One catalog operation. */
  datatype OperationSummary = OperationSummary(
    verb: string,
    summary: string,
    description: string,
    requiresAuth: bool,
    parameters: seq<Option<string>>,
    requiresBody: bool)

  datatype EndpointInfo = EndpointInfo(path: string, operations: seq<OperationSummary>)

  /** The `categories` dict: category name to its listed endpoints, in
      insertion order. */
  type Categories = seq<(string, seq<EndpointInfo>)>

  function Summarize(key: string, op: OperationObject): OperationSummary {
    OperationSummary(
      Upper(key),
      op.summary.GetOr(""),
      op.description.GetOr(""),
      op.security != [],
      op.parameterNames,
      op.requestBody.Some? && Truthy(op.requestBody.value))
  }

  /** The operations of one path item, in entry order. */
  function Operations(item: PathItem): (r: seq<OperationSummary>)
    requires WellFormedItem(item)
    ensures |r| <= |item|
    ensures r == [] <==> forall j :: 0 <= j < |item| ==> !IsOperationKey(item[j].0)
    decreases |item|
  {
    if |item| == 0 then []
    else
      var init := item[..|item| - 1];
      var last := item[|item| - 1];
      assert forall j :: 0 <= j < |init| ==> init[j] == item[j];
      Operations(init)
        + (if IsOperationKey(last.0) then [Summarize(last.0, last.1.op)] else [])
  }

  lemma UpperOperationKey(key: string)
    requires IsOperationKey(key)
    ensures Upper(key) in ["GET", "POST", "PUT", "DELETE"]
  {
    if key == "get" {
      assert Upper(key) == "GET";
    } else if key == "post" {
      assert Upper(key) == "POST";
    } else if key == "put" {
      assert Upper(key) == "PUT";
    } else {
      assert Upper(key) == "DELETE";
    }
  }

  /** Only get/post/put/delete entries produce operations, one each, in
      order, with the verb upper-cased; `requires_auth` is a non-empty
      `security` and `requires_body` a truthy `requestBody`. */
  lemma {:induction false} OperationsOfItem(item: PathItem)
    requires WellFormedItem(item)
    ensures forall o :: o in Operations(item) ==> o.verb in ["GET", "POST", "PUT", "DELETE"]
    ensures forall j :: 0 <= j < |item| && IsOperationKey(item[j].0) ==>
              Summarize(item[j].0, item[j].1.op) in Operations(item)
    decreases |item|
  {
    if |item| > 0 {
      var init := item[..|item| - 1];
      var last := item[|item| - 1];
      assert forall j :: 0 <= j < |init| ==> init[j] == item[j];
      OperationsOfItem(init);
      if IsOperationKey(last.0) {
        UpperOperationKey(last.0);
      }
    }
  }

  /** The first index holding key `c`, as a dict lookup finds it. */
  function IndexOf(cats: Categories, c: string): (i: nat)
    requires HasKey(cats, c)
    ensures i < |cats| && cats[i].0 == c
    ensures forall j :: 0 <= j < i ==> cats[j].0 != c
    decreases |cats|
  {
    if cats[0].0 == c then 0
    else
      assert HasKey(cats[1..], c) by {
        var j :| 0 <= j < |cats| && cats[j].0 == c;
        assert cats[1..][j - 1] == cats[j];
      }
      IndexOf(cats[1..], c) + 1
  }

  /** `if category not in categories: categories[category] = []`. */
  function EnsureCategory(cats: Categories, c: string): Categories {
    if HasKey(cats, c) then cats else cats + [(c, [])]
  }

  /** `categories[category].append(endpoint_info)`. */
  function AppendEndpoint(cats: Categories, c: string, e: EndpointInfo): Categories
    requires HasKey(cats, c)
  {
    var i := IndexOf(cats, c);
    cats[i := (c, cats[i].1 + [e])]
  }

  /** One iteration of the loop over `paths.items()`. */
  function AddPath(cats: Categories, path: string, item: PathItem): Categories
    requires WellFormedItem(item)
  {
    var c := CategoryOf(item);
    var withKey := EnsureCategory(cats, c);
    assert HasKey(withKey, c) by {
      if !HasKey(cats, c) { assert withKey[|cats|].0 == c; }
    }
    var ops := Operations(item);
    if ops != [] then AppendEndpoint(withKey, c, EndpointInfo(path, ops)) else withKey
  }

  /** The categories after the loop has seen every path, in order. */
  function Group(paths: seq<(string, PathItem)>): (r: Categories)
    requires WellFormedPaths(paths)
    ensures |r| <= |paths|
    decreases |paths|
  {
    if |paths| == 0 then []
    else
      var init := paths[..|paths| - 1];
      assert forall p :: 0 <= p < |init| ==> init[p] == paths[p];
      AddPath(Group(init), paths[|paths| - 1].0, paths[|paths| - 1].1)
  }

  /** `sum(len(eps) for eps in categories.values())`. */
  function Total(cats: Categories): nat
    decreases |cats|
  {
    if |cats| == 0 then 0 else Total(cats[..|cats| - 1]) + |cats[|cats| - 1].1|
  }

  /** How many paths have at least one operation. */
  function ListedPaths(paths: seq<(string, PathItem)>): nat
    requires WellFormedPaths(paths)
    decreases |paths|
  {
    if |paths| == 0 then 0
    else
      var init := paths[..|paths| - 1];
      assert forall p :: 0 <= p < |init| ==> init[p] == paths[p];
      ListedPaths(init) + (if Operations(paths[|paths| - 1].1) != [] then 1 else 0)
  }

  /** What `list_available_endpoints` returns: the fetched dict unchanged
      when it has an `error` key, the catalog otherwise; `Raised` stands for
      the AttributeError of a non-object operation entry. */
  datatype Listing =
    | Passthrough(docs: Result<Document, string>)
    | Catalog(total: nat, categories: Categories, baseUrl: string, authentication: string)
    | Raised

  function ListingOf(docs: Result<Document, string>): (r: Listing)
    ensures r.Passthrough? <==> docs.Failure? || docs.value.error.Some?
    ensures r.Passthrough? ==> r.docs == docs
    ensures r.Raised? <==> docs.Success? && docs.value.error.None? && !WellFormedPaths(docs.value.paths)
    ensures r.Catalog? ==> && WellFormedPaths(docs.value.paths)
                           && r.categories == Group(docs.value.paths)
                           && r.total == Total(r.categories)
                           && r.baseUrl == FusefyApi.BaseUrl && r.authentication == AuthenticationNote
  {
    if docs.Failure? || docs.value.error.Some? then Passthrough(docs)
    else if !WellFormedPaths(docs.value.paths) then Raised
    else
      var cats := Group(docs.value.paths);
      Catalog(Total(cats), cats, FusefyApi.BaseUrl, AuthenticationNote)
  }

  // ---------------------------------------------------------------------
  // The imperative code: the loops of list_available_endpoints.

  /** The first inner loop: scan the entries for the first operation and
      take its first tag, stopping there even when it has none. */
  method ScanCategory(item: PathItem) returns (category: string)
    requires WellFormedItem(item)
    ensures category == CategoryOf(item)
  {
    category := DefaultCategory;
    var i := 0;
    while i < |item|
      invariant 0 <= i <= |item|
      invariant forall j :: 0 <= j < i ==> !IsOperationKey(item[j].0)
      invariant category == DefaultCategory
    {
      if IsOperationKey(item[i].0) {
        var tags := item[i].1.op.tags;
        if |tags| > 0 {
          category := tags[0];
        }
        assert FirstOperationIndex(item) == Some(i);
        return;
      }
      i := i + 1;
    }
  }

  /** The second inner loop: one summary per operation entry. */
  method CollectOperations(item: PathItem) returns (operations: seq<OperationSummary>)
    requires WellFormedItem(item)
    ensures operations == Operations(item)
  {
    operations := [];
    var i := 0;
    while i < |item|
      invariant 0 <= i <= |item|
      invariant WellFormedItem(item[..i])
      invariant operations == Operations(item[..i])
    {
      var (key, value) := item[i];
      if IsOperationKey(key) {
        operations := operations + [Summarize(key, value.op)];
      }
      assert item[..i + 1][..i] == item[..i];
      i := i + 1;
    }
    assert item[..i] == item;
  }

  /** The loop over `paths.items()`, building the category dict. */
  method GroupPaths(paths: seq<(string, PathItem)>) returns (categories: Categories)
    requires WellFormedPaths(paths)
    ensures categories == Group(paths)
  {
    categories := [];
    var i := 0;
    while i < |paths|
      invariant 0 <= i <= |paths|
      invariant WellFormedPaths(paths[..i])
      invariant categories == Group(paths[..i])
    {
      var (path, item) := paths[i];
      ghost var before := categories;
      var category := ScanCategory(item);
      if !HasKey(categories, category) {
        categories := categories + [(category, [])];
        assert categories[|categories| - 1].0 == category;
      }
      assert categories == EnsureCategory(before, category);
      var operations := CollectOperations(item);
      if operations != [] {
        categories := AppendEndpoint(categories, category, EndpointInfo(path, operations));
      }
      assert categories == AddPath(before, path, item);
      GroupStep(paths, i);
      i := i + 1;
    }
    assert paths[..i] == paths;
  }

  /** The loop's state after one more path. */
  lemma GroupStep(paths: seq<(string, PathItem)>, i: nat)
    requires WellFormedPaths(paths) && i < |paths|
    ensures WellFormedPaths(paths[..i]) && WellFormedPaths(paths[..i + 1])
    ensures Group(paths[..i + 1]) == AddPath(Group(paths[..i]), paths[i].0, paths[i].1)
  {
    assert paths[..i + 1][..i] == paths[..i];
  }

  method CountEndpoints(cats: Categories) returns (total: nat)
    ensures total == Total(cats)
  {
    total := 0;
    var i := 0;
    while i < |cats|
      invariant 0 <= i <= |cats|
      invariant total == Total(cats[..i])
    {
      total := total + |cats[i].1|;
      assert cats[..i + 1][..i] == cats[..i];
      i := i + 1;
    }
    assert cats[..i] == cats;
  }

  /** `list_available_endpoints`, fetching the document through `x`. */
  method ListAvailableEndpoints(x: DocsExchange) returns (r: Listing)
    ensures r == ListingOf(GetApiDocumentation(x))
  {
    var docs := GetApiDocumentation(x);
    if docs.Failure? || docs.value.error.Some? {
      return Passthrough(docs);
    }
    var paths := docs.value.paths;
    if !WellFormedPaths(paths) {
      return Raised;
    }
    var categories := GroupPaths(paths);
    var total := CountEndpoints(categories);
    r := Catalog(total, categories, FusefyApi.BaseUrl, AuthenticationNote);
  }

  // ---------------------------------------------------------------------
  // What the catalog promises.

  /** Endpoint `e` is listed under category `c`. */
  predicate Lists(cats: Categories, c: string, e: EndpointInfo) {
    exists i :: 0 <= i < |cats| && cats[i].0 == c && e in cats[i].1
  }

  /** `e` is the catalog entry that path `entry` produces under `c`. */
  predicate Describes(entry: (string, PathItem), c: string, e: EndpointInfo) {
    && WellFormedItem(entry.1)
    && e.path == entry.0
    && e.operations == Operations(entry.1)
    && e.operations != []
    && CategoryOf(entry.1) == c
  }

  lemma {:induction false} TotalAppend(cats: Categories, x: (string, seq<EndpointInfo>))
    ensures Total(cats + [x]) == Total(cats) + |x.1|
  {
    assert (cats + [x])[..|cats|] == cats;
  }

  lemma {:induction false} TotalUpdate(cats: Categories, i: nat, x: (string, seq<EndpointInfo>))
    requires i < |cats|
    ensures Total(cats[i := x]) == Total(cats) - |cats[i].1| + |x.1|
    decreases |cats|
  {
    var n := |cats|;
    if i == n - 1 {
      assert cats[i := x][..n - 1] == cats[..n - 1];
    } else {
      assert cats[i := x][..n - 1] == cats[..n - 1][i := x];
      TotalUpdate(cats[..n - 1], i, x);
    }
  }

  /** Each listed path adds exactly one to the total. */
  lemma AddPathTotal(cats: Categories, path: string, item: PathItem)
    requires WellFormedItem(item)
    ensures Total(AddPath(cats, path, item)) == Total(cats) + (if Operations(item) != [] then 1 else 0)
  {
    var c := CategoryOf(item);
    var withKey := EnsureCategory(cats, c);
    if !HasKey(cats, c) {
      TotalAppend(cats, (c, []));
      assert withKey[|cats|].0 == c;
    }
    if Operations(item) != [] {
      var i := IndexOf(withKey, c);
      TotalUpdate(withKey, i, (c, withKey[i].1 + [EndpointInfo(path, Operations(item))]));
    }
  }

  /** `total_endpoints` counts listed paths, not operations. */
  lemma {:induction false} GroupTotal(paths: seq<(string, PathItem)>)
    requires WellFormedPaths(paths)
    ensures Total(Group(paths)) == ListedPaths(paths)
    decreases |paths|
  {
    if |paths| > 0 {
      var init := paths[..|paths| - 1];
      assert forall p :: 0 <= p < |init| ==> init[p] == paths[p];
      GroupTotal(init);
      AddPathTotal(Group(init), paths[|paths| - 1].0, paths[|paths| - 1].1);
    }
  }

  /** Categories form a dict: no name appears twice. */
  lemma {:induction false} GroupDistinctKeys(paths: seq<(string, PathItem)>)
    requires WellFormedPaths(paths)
    ensures UniqueKeys(Group(paths))
    decreases |paths|
  {
    if |paths| > 0 {
      var init := paths[..|paths| - 1];
      assert forall p :: 0 <= p < |init| ==> init[p] == paths[p];
      GroupDistinctKeys(init);
      AddPathDistinctKeys(Group(init), paths[|paths| - 1].0, paths[|paths| - 1].1);
    }
  }

  /** One loop iteration keeps the category names distinct. */
  lemma AddPathDistinctKeys(cats: Categories, path: string, item: PathItem)
    requires WellFormedItem(item) && UniqueKeys(cats)
    ensures UniqueKeys(AddPath(cats, path, item))
  {
    var withKey := EnsureCategory(cats, CategoryOf(item));
    assert UniqueKeys(withKey);
    var result := AddPath(cats, path, item);
    assert forall i :: 0 <= i < |result| ==> result[i].0 == withKey[i].0;
  }

  /** One loop iteration adds its path's category as a key when it is new
      and leaves the other keys alone. */
  lemma AddPathKeys(cats: Categories, path: string, item: PathItem, c: string)
    requires WellFormedItem(item)
    ensures HasKey(AddPath(cats, path, item), c) <==> HasKey(cats, c) || c == CategoryOf(item)
  {
    var k := CategoryOf(item);
    var withKey := EnsureCategory(cats, k);
    var result := AddPath(cats, path, item);
    assert |result| == |withKey|;
    assert forall i :: 0 <= i < |result| ==> result[i].0 == withKey[i].0;
    if !HasKey(cats, k) {
      assert withKey[|cats|].0 == k;
      assert forall i :: 0 <= i < |cats| ==> withKey[i] == cats[i];
    }
    if HasKey(result, c) {
      var i :| 0 <= i < |result| && result[i].0 == c;
      assert withKey[i].0 == c;
    }
    if HasKey(cats, c) {
      var i :| 0 <= i < |cats| && cats[i].0 == c;
      assert result[i].0 == c;
    }
  }

  /** The category names are exactly the categories of the paths, including
      those of paths that list no operation (their list stays empty). */
  lemma {:induction false} GroupKeys(paths: seq<(string, PathItem)>, c: string)
    requires WellFormedPaths(paths)
    ensures HasKey(Group(paths), c) <==> exists p :: 0 <= p < |paths| && CategoryOf(paths[p].1) == c
    decreases |paths|
  {
    if |paths| > 0 {
      var init := paths[..|paths| - 1];
      var last := paths[|paths| - 1];
      assert forall p :: 0 <= p < |init| ==> init[p] == paths[p];
      GroupKeys(init, c);
      AddPathKeys(Group(init), last.0, last.1, c);
      if exists p :: 0 <= p < |paths| && CategoryOf(paths[p].1) == c {
        var p :| 0 <= p < |paths| && CategoryOf(paths[p].1) == c;
        if p < |paths| - 1 {
          assert CategoryOf(init[p].1) == c;
        }
      }
    }
  }

  /** Adding a category key lists nothing new. */
  lemma EnsureCategoryLists(cats: Categories, k: string, c: string, e: EndpointInfo)
    ensures HasKey(EnsureCategory(cats, k), k)
    ensures Lists(EnsureCategory(cats, k), c, e) <==> Lists(cats, c, e)
  {
    var withKey := EnsureCategory(cats, k);
    if !HasKey(cats, k) {
      assert withKey[|cats|].0 == k;
    }
    if Lists(withKey, c, e) {
      var i :| 0 <= i < |withKey| && withKey[i].0 == c && e in withKey[i].1;
      assert i < |cats|;
    }
    if Lists(cats, c, e) {
      var i :| 0 <= i < |cats| && cats[i].0 == c && e in cats[i].1;
      assert withKey[i] == cats[i];
    }
  }

  /** What one loop iteration adds: exactly the entry of its own path, under
      its own category, and only when the path has operations. */
  lemma AddPathLists(cats: Categories, path: string, item: PathItem, c: string, e: EndpointInfo)
    requires WellFormedItem(item)
    ensures Lists(AddPath(cats, path, item), c, e) <==>
              Lists(cats, c, e) || Describes((path, item), c, e)
  {
    var k := CategoryOf(item);
    var withKey := EnsureCategory(cats, k);
    EnsureCategoryLists(cats, k, c, e);
    var ops := Operations(item);
    if ops != [] {
      var info := EndpointInfo(path, ops);
      var i := IndexOf(withKey, k);
      var result := AddPath(cats, path, item);
      assert result == withKey[i := (k, withKey[i].1 + [info])];
      if Lists(result, c, e) {
        var j :| 0 <= j < |result| && result[j].0 == c && e in result[j].1;
        if j != i {
          assert Lists(withKey, c, e);
        } else if e in withKey[i].1 {
          assert Lists(withKey, c, e);
        }
      }
      if Lists(withKey, c, e) {
        var j :| 0 <= j < |withKey| && withKey[j].0 == c && e in withKey[j].1;
        assert e in result[j].1;
      }
      if Describes((path, item), c, e) {
        assert e == info && result[i].0 == c && e in result[i].1;
      }
    }
  }

  /** Every listed endpoint describes one path of the document under that
      path's category, with that path's operations (soundness), and every
      path with at least one operation is listed under its category
      (completeness). */
  lemma {:induction false} GroupListsExactlyOperationPaths(paths: seq<(string, PathItem)>, c: string, e: EndpointInfo)
    requires WellFormedPaths(paths)
    ensures Lists(Group(paths), c, e) <==> exists p :: 0 <= p < |paths| && Describes(paths[p], c, e)
    decreases |paths|
  {
    if |paths| > 0 {
      var init := paths[..|paths| - 1];
      var last := paths[|paths| - 1];
      assert forall p :: 0 <= p < |init| ==> init[p] == paths[p];
      GroupListsExactlyOperationPaths(init, c, e);
      AddPathLists(Group(init), last.0, last.1, c, e);
      assert last == (last.0, last.1);
      if exists p :: 0 <= p < |paths| && Describes(paths[p], c, e) {
        var p :| 0 <= p < |paths| && Describes(paths[p], c, e);
        if p < |paths| - 1 {
          assert Describes(init[p], c, e);
        }
      }
    }
  }

  /** In a document whose `paths` is a dict, a path is listed at most once:
      two listed endpoints with the same path are the same entry under the
      same category. */
  lemma ListedPathsAreUnique(paths: seq<(string, PathItem)>, c1: string, e1: EndpointInfo,
                             c2: string, e2: EndpointInfo)
    requires WellFormedPaths(paths) && UniqueKeys(paths)
    requires Lists(Group(paths), c1, e1) && Lists(Group(paths), c2, e2)
    requires e1.path == e2.path
    ensures c1 == c2 && e1 == e2
  {
    GroupListsExactlyOperationPaths(paths, c1, e1);
    GroupListsExactlyOperationPaths(paths, c2, e2);
    var p1 :| 0 <= p1 < |paths| && Describes(paths[p1], c1, e1);
    var p2 :| 0 <= p2 < |paths| && Describes(paths[p2], c2, e2);
    assert paths[p1].0 == paths[p2].0;
  }

  /** An operation key absent from a path item gives no verb among its
      operations. */
  lemma {:induction false} VerbsAvoidAbsentKey(item: PathItem, k: string)
    requires WellFormedItem(item) && IsOperationKey(k)
    requires forall j :: 0 <= j < |item| ==> item[j].0 != k
    ensures forall i :: 0 <= i < |Operations(item)| ==> Operations(item)[i].verb != Upper(k)
    decreases |item|
  {
    if |item| > 0 {
      var init := item[..|item| - 1];
      var last := item[|item| - 1];
      assert forall j :: 0 <= j < |init| ==> init[j] == item[j];
      VerbsAvoidAbsentKey(init, k);
      if IsOperationKey(last.0) && Upper(last.0) == Upper(k) {
        UpperOperationKeyInjective(last.0, k);
      }
    }
  }

  lemma UpperOperationKeyInjective(k1: string, k2: string)
    requires IsOperationKey(k1) && IsOperationKey(k2) && Upper(k1) == Upper(k2)
    ensures k1 == k2
  {
    assert Upper("get") == "GET" && Upper("post") == "POST";
    assert Upper("put") == "PUT" && Upper("delete") == "DELETE";
  }

  /** In a path item that is a dict, no verb is listed twice. */
  lemma {:induction false} OperationVerbsUnique(item: PathItem)
    requires WellFormedItem(item) && UniqueKeys(item)
    ensures forall i, k :: 0 <= i < k < |Operations(item)| ==> Operations(item)[i].verb != Operations(item)[k].verb
    decreases |item|
  {
    if |item| > 0 {
      var init := item[..|item| - 1];
      var last := item[|item| - 1];
      assert forall j :: 0 <= j < |init| ==> init[j] == item[j];
      OperationVerbsUnique(init);
      if IsOperationKey(last.0) {
        VerbsAvoidAbsentKey(init, last.0);
      }
    }
  }

  /** The catalog's total is the number of listed paths and its category
      keys are distinct. Which paths are listed, and under which category,
      is GroupListsExactlyOperationPaths and ListedPathsAreUnique. */
  lemma CatalogCountsListedPaths(docs: Result<Document, string>)
    ensures ListingOf(docs).Catalog? ==>
              && docs.Success? && docs.value.error.None?
              && ListingOf(docs).total == ListedPaths(docs.value.paths)
              && UniqueKeys(ListingOf(docs).categories)
  {
    if ListingOf(docs).Catalog? {
      GroupTotal(docs.value.paths);
      GroupDistinctKeys(docs.value.paths);
    }
  }
}
