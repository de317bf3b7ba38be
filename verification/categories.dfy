/** The deterministic parts of src/utils/category_selector.py: cutting the
    JSON block out of the model's reply, looking an id up in the two-level
    category catalogue, turning the model's proposals into selected
    categories, and the fallback used whenever anything raises. */
module Categories {
  import opened Wrappers
  import opened Text
  import opened Json

  /** A catalogue entry, main or sub: the `{name, url, id}` lookups return. */
  datatype Category = Category(id: string, name: string, url: string)

  /** A main category with its subcategories (categories.json). */
  datatype MainCategory = MainCategory(info: Category, subs: seq<Category>)

  type Catalogue = seq<MainCategory>

  /** `SelectedCategory`.  The type and reason are copied from the model's
      proposal unconverted, so they are whatever JSON value it held. */
  datatype SelectedCategory = SelectedCategory(
    name: string, url: string, categoryId: string,
    categoryType: Json, relevanceScore: real, reason: Json)

  const DefaultId: string := "ai_machine_learning"
  const DefaultScore: real := 70.0
  const DefaultReason: string := "デフォルト選択（AI・機械学習）"
  const NoJsonMessage: string := "JSON format not found in response"

  // ---------------------------------------------------------------------
  // _parse_llm_response: the block from the first '{' to the last '}'

  function JsonBlock(response: string): (r: Result<string>)
    ensures r.Failure? <==> '{' !in response || '}' !in response
    ensures r.Failure? ==> r.error == NoJsonMessage
    ensures r.Success? && r.value != [] ==>
      && r.value[0] == '{' && r.value[|r.value| - 1] == '}'
      && exists i :: 0 <= i <= |response| - |r.value| && response[i..i + |r.value|] == r.value
                     && '{' !in response[..i] && '}' !in response[i + |r.value|..]
  {
    match (IndexOfChar(response, '{'), LastIndexOfChar(response, '}'))
    case (Some(start), Some(last)) =>
      if start <= last then
        var block := response[start..last + 1];
        assert response[start..start + |block|] == block;
        assert forall j :: last + 1 <= j < |response| ==> response[j] != '}';
        assert '}' !in response[start + |block|..];
        Success(block)
      else Success("")
    case _ => Failure(NoJsonMessage)
  }

  /** A reply that holds one brace-delimited block, with no '{' before it
      and no '}' after it, yields exactly that block. */
  lemma JsonBlockOfWrapped(pre: string, mid: string, post: string)
    requires '{' !in pre && '}' !in post
    ensures JsonBlock(pre + "{" + mid + "}" + post) == Success("{" + mid + "}")
  {
    var s := pre + "{" + mid + "}" + post;
    var start := |pre|;
    var last := |pre| + 1 + |mid|;
    assert s[..start] == pre && s[start] == '{';
    IndexOfCharFirst(s, '{', start);
    assert s[last] == '}' && s[last + 1..] == post;
    NoneAfter(s, post, last, '}');
    LastIndexIsUnique(s, '}', last);
    JsonBlockAt(s, start, last);
    WrappedMiddle(pre, mid, post);
  }

  lemma WrappedMiddle(pre: string, mid: string, post: string)
    ensures (pre + "{" + mid + "}" + post)[|pre|..|pre| + |mid| + 2] == "{" + mid + "}"
  {
    var s := pre + "{" + mid + "}" + post;
    var x := "{" + mid + "}";
    forall k | 0 <= k < |x|
      ensures s[|pre| + k] == x[k]
    {
      if 0 < k <= |mid| {
        assert s[|pre| + k] == mid[k - 1] == x[k];
      }
    }
    assert s[|pre|..|pre| + |x|] == x;
  }

  /** A character missing from the tail after `i` occurs nowhere after `i`. */
  lemma NoneAfter(s: string, post: string, i: nat, c: char)
    requires i < |s| && s[i + 1..] == post && c !in post
    ensures forall j :: i < j < |s| ==> s[j] != c
  {
    forall j | i < j < |s|
      ensures s[j] != c
    {
      assert s[j] == post[j - i - 1];
    }
  }

  /** With the first '{' at `start` and the last '}' at `last`, the block
      is the text between them. */
  lemma JsonBlockAt(s: string, start: nat, last: nat)
    requires IndexOfChar(s, '{') == Some(start) && LastIndexOfChar(s, '}') == Some(last)
    requires start <= last
    ensures JsonBlock(s) == Success(s[start..last + 1])
  {
  }

  /** The last occurrence is determined by its defining property. */
  lemma LastIndexIsUnique(s: string, c: char, i: nat)
    requires i < |s| && s[i] == c
    requires forall j :: i < j < |s| ==> s[j] != c
    ensures LastIndexOfChar(s, c) == Some(i)
  {
    var r := LastIndexOfChar(s, c);
    assert r.Some?;
    if r.value < i {
      assert false;
    }
  }

  // ---------------------------------------------------------------------
  // _find_category_info / get_category_by_id

  /** `k` is the first index of `entries` holding id `id`. */
  predicate FirstIdAt(entries: seq<Category>, id: string, k: int) {
    && 0 <= k < |entries| && entries[k].id == id
    && forall j :: 0 <= j < k ==> entries[j].id != id
  }

  lemma FirstIdAtShift(entries: seq<Category>, id: string)
    requires |entries| > 0 && entries[0].id != id
    ensures forall k :: FirstIdAt(entries[1..], id, k) ==> FirstIdAt(entries, id, k + 1)
  {
    assert forall k :: 1 <= k < |entries| ==> entries[k] == entries[1..][k - 1];
  }

  /** The first entry of `entries` with id `id`. */
  function FirstWithId(entries: seq<Category>, id: string): (r: Option<Category>)
    ensures r.Some? ==> exists k :: FirstIdAt(entries, id, k) && entries[k] == r.value
    ensures r.None? ==> forall k :: 0 <= k < |entries| ==> entries[k].id != id
  {
    if |entries| == 0 then None
    else if entries[0].id == id then Some(entries[0])
    else
      FirstIdAtShift(entries, id);
      assert forall k :: 1 <= k < |entries| ==> entries[k] == entries[1..][k - 1];
      FirstWithId(entries[1..], id)
  }

  /** The catalogue in the order `_find_category_info` visits it: each main
      category, then its subcategories. */
  function Flatten(catalogue: Catalogue): (entries: seq<Category>)
    ensures |catalogue| > 0 ==> |entries| > 0 && entries[0] == catalogue[0].info
  {
    if |catalogue| == 0 then []
    else [catalogue[0].info] + catalogue[0].subs + Flatten(catalogue[1..])
  }

  /** `_find_category_info`: main categories in order, each main's id
      before its subcategories. */
  function FindCategoryInfo(catalogue: Catalogue, id: string): (r: Option<Category>)
    ensures r.Some? ==> r.value.id == id
  {
    if |catalogue| == 0 then None
    else if catalogue[0].info.id == id then Some(catalogue[0].info)
    else
      match FirstWithId(catalogue[0].subs, id)
      case Some(sub) => Some(sub)
      case None => FindCategoryInfo(catalogue[1..], id)
  }

  lemma {:induction false} FirstWithIdAppend(a: seq<Category>, b: seq<Category>, id: string)
    ensures FirstWithId(a + b, id) == if FirstWithId(a, id).Some? then FirstWithId(a, id) else FirstWithId(b, id)
  {
    if |a| == 0 {
      assert a + b == b;
    } else {
      assert (a + b)[0] == a[0];
      assert (a + b)[1..] == a[1..] + b;
      FirstWithIdAppend(a[1..], b, id);
    }
  }

  /** The nested search finds the first catalogue entry, in visiting
      order, that has the id: the first hit wins. */
  lemma {:induction false} FindIsFirstInVisitOrder(catalogue: Catalogue, id: string)
    ensures FindCategoryInfo(catalogue, id) == FirstWithId(Flatten(catalogue), id)
  {
    if |catalogue| > 0 {
      var m := catalogue[0];
      var rest := Flatten(catalogue[1..]);
      assert Flatten(catalogue) == [m.info] + (m.subs + rest);
      FirstWithIdAppend([m.info], m.subs + rest, id);
      assert [m.info][1..] == [];
      assert FirstWithId([m.info], id) == if m.info.id == id then Some(m.info) else None;
      if m.info.id != id {
        FirstWithIdAppend(m.subs, rest, id);
        FindIsFirstInVisitOrder(catalogue[1..], id);
      }
    }
  }

  /** `get_category_by_id`, which only delegates. */
  function GetCategoryById(catalogue: Catalogue, id: string): (r: Option<Category>)
    ensures r == FirstWithId(Flatten(catalogue), id)
    ensures r.Some? ==> r.value.id == id
  {
    FindIsFirstInVisitOrder(catalogue, id);
    FindCategoryInfo(catalogue, id)
  }

  // ---------------------------------------------------------------------
  // _get_default_categories

  /** `k` is the first main category with id `id`. */
  predicate FirstMainAt(catalogue: Catalogue, id: string, k: int) {
    && 0 <= k < |catalogue| && catalogue[k].info.id == id
    && forall j :: 0 <= j < k ==> catalogue[j].info.id != id
  }

  lemma FirstMainAtShift(catalogue: Catalogue, id: string)
    requires |catalogue| > 0 && catalogue[0].info.id != id
    ensures forall k :: FirstMainAt(catalogue[1..], id, k) ==> FirstMainAt(catalogue, id, k + 1)
  {
    assert forall k :: 1 <= k < |catalogue| ==> catalogue[k] == catalogue[1..][k - 1];
  }

  /** The first main category (subcategories are not searched) with id `id`. */
  function FindMain(catalogue: Catalogue, id: string): (r: Option<Category>)
    ensures r.Some? ==> exists k :: FirstMainAt(catalogue, id, k) && catalogue[k].info == r.value
    ensures r.None? ==> forall k :: 0 <= k < |catalogue| ==> catalogue[k].info.id != id
  {
    if |catalogue| == 0 then None
    else if catalogue[0].info.id == id then Some(catalogue[0].info)
    else
      FirstMainAtShift(catalogue, id);
      assert forall k :: 1 <= k < |catalogue| ==> catalogue[k] == catalogue[1..][k - 1];
      FindMain(catalogue[1..], id)
  }

  /** The fallback: the main category "ai_machine_learning" as a main
      selection scored 70, or nothing when the catalogue lacks it. */
  function DefaultCategories(catalogue: Catalogue): (r: seq<SelectedCategory>)
    ensures |r| <= 1
    ensures |r| == 1 <==> exists k :: 0 <= k < |catalogue| && catalogue[k].info.id == DefaultId
    ensures |r| == 1 ==>
      && r[0].categoryId == DefaultId && r[0].categoryType == JStr("main")
      && r[0].relevanceScore == DefaultScore && r[0].reason == JStr(DefaultReason)
      && exists k :: 0 <= k < |catalogue| && catalogue[k].info == Category(DefaultId, r[0].name, r[0].url)
  {
    match FindMain(catalogue, DefaultId)
    case None => []
    case Some(main) => [SelectedCategory(main.name, main.url, main.id, JStr("main"), DefaultScore, JStr(DefaultReason))]
  }

  // ---------------------------------------------------------------------
  // _create_selected_categories

  /** `parsed_result.get('selected_categories', [])`, then iterating over
      it: a list yields its items, an empty object or string yields
      nothing, anything else raises. */
  function Proposals(parsed: Json): (r: Result<seq<Json>>)
    ensures parsed.JObj? && "selected_categories" !in parsed.fields ==> r == Success([])
    ensures parsed.JObj? && "selected_categories" in parsed.fields && parsed.fields["selected_categories"].JArr?
      ==> r == Success(parsed.fields["selected_categories"].items)
    ensures !parsed.JObj? ==> r.Failure?
  {
    if !parsed.JObj? then Failure("object has no attribute 'get'")
    else if "selected_categories" !in parsed.fields then Success([])
    else
      match parsed.fields["selected_categories"]
      case JArr(items) => Success(items)
      case JObj(m) => if |m| == 0 then Success([]) else Failure("string indices must be integers")
      case JStr(t) => if t == "" then Success([]) else Failure("string indices must be integers")
      case _ => Failure("object is not iterable")
  }

  /** Python's `float(v)` on a JSON value; `floatOfString` is its parser for strings. */
  function ToFloat(v: Json, floatOfString: string -> Option<real>): (r: Result<real>)
    ensures v.JInt? ==> r == Success(v.i as real)
    ensures v.JFloat? ==> r == Success(v.r)
    ensures v.JNull? || v.JArr? || v.JObj? ==> r.Failure?
  {
    match v
    case JInt(i) => Success(i as real)
    case JFloat(x) => Success(x)
    case JBool(b) => Success(if b then 1.0 else 0.0)
    case JStr(s) => (match floatOfString(s) case Some(x) => Success(x) case None => Failure("could not convert string to float"))
    case _ => Failure("float() argument must be a string or a real number")
  }

  /** One proposal: skipped (`None`) when its id is not in the catalogue,
      else a selection; raising when it is not an object with an id, or,
      once its id is found, lacks a type, a convertible score or a reason. */
  function Entry(catalogue: Catalogue, item: Json, floatOfString: string -> Option<real>)
    : (r: Result<Option<SelectedCategory>>)
    ensures !item.JObj? || "id" !in item.fields ==> r.Failure?
    ensures r == Success(None) <==>
      item.JObj? && "id" in item.fields
      && (!item.fields["id"].JStr? || FindCategoryInfo(catalogue, item.fields["id"].s).None?)
    ensures r.Success? && r.value.Some? ==>
      var e := r.value.value;
      && item.JObj? && "id" in item.fields && item.fields["id"] == JStr(e.categoryId)
      && FindCategoryInfo(catalogue, e.categoryId) == Some(Category(e.categoryId, e.name, e.url))
      && "type" in item.fields && e.categoryType == item.fields["type"]
      && "reason" in item.fields && e.reason == item.fields["reason"]
      && "relevance_score" in item.fields
      && ToFloat(item.fields["relevance_score"], floatOfString) == Success(e.relevanceScore)
  {
    if !item.JObj? || "id" !in item.fields then Failure("proposal without an id")
    else
      var id := item.fields["id"];
      if !id.JStr? then Success(None)
      else
        match FindCategoryInfo(catalogue, id.s)
        case None => Success(None)
        case Some(info) =>
          if "type" !in item.fields || "relevance_score" !in item.fields || "reason" !in item.fields then
            Failure("proposal without a type, score or reason")
          else
            match ToFloat(item.fields["relevance_score"], floatOfString)
            case Failure(e) => Failure(e)
            case Success(score) =>
              Success(Some(SelectedCategory(info.name, info.url, id.s, item.fields["type"], score,
                                            item.fields["reason"])))
  }

  /** The loop of `_create_selected_categories`: proposals in order, the
      unknown ones dropped; the first proposal that raises aborts it. */
  function CreateSelected(catalogue: Catalogue, items: seq<Json>, floatOfString: string -> Option<real>)
    : (r: Result<seq<SelectedCategory>>)
    ensures r.Success? ==> |r.value| <= |items|
    ensures r.Success? ==> forall k :: 0 <= k < |r.value| ==>
      FindCategoryInfo(catalogue, r.value[k].categoryId) == Some(Category(r.value[k].categoryId, r.value[k].name, r.value[k].url))
  {
    if |items| == 0 then Success([])
    else
      match Entry(catalogue, items[0], floatOfString)
      case Failure(e) => Failure(e)
      case Success(head) =>
        match CreateSelected(catalogue, items[1..], floatOfString)
        case Failure(e) => Failure(e)
        case Success(rest) =>
          Success(match head case Some(x) => [x] + rest case None => rest)
  }

  /** The proposals are processed one after another: creating from two
      lists in a row is creating from each and concatenating, so the
      surviving proposals keep their order. */
  lemma {:induction false} CreateSelectedAppend(catalogue: Catalogue, a: seq<Json>, b: seq<Json>,
                                                floatOfString: string -> Option<real>)
    ensures var ra, rb := CreateSelected(catalogue, a, floatOfString), CreateSelected(catalogue, b, floatOfString);
      CreateSelected(catalogue, a + b, floatOfString) ==
        if ra.Failure? then ra else if rb.Failure? then rb else Success(ra.value + rb.value)
  {
    if |a| == 0 {
      assert a + b == b;
      var rb := CreateSelected(catalogue, b, floatOfString);
      if rb.Success? {
        assert [] + rb.value == rb.value;
      }
    } else {
      assert (a + b)[0] == a[0];
      assert (a + b)[1..] == a[1..] + b;
      CreateSelectedAppend(catalogue, a[1..], b, floatOfString);
      var e := Entry(catalogue, a[0], floatOfString);
      if e.Success? && e.value.Some? {
        var ra, rb := CreateSelected(catalogue, a[1..], floatOfString), CreateSelected(catalogue, b, floatOfString);
        if ra.Success? && rb.Success? {
          assert [e.value.value] + (ra.value + rb.value) == ([e.value.value] + ra.value) + rb.value;
        }
      }
    }
  }

  // ---------------------------------------------------------------------
  // select_categories

  /** The `try` body of `select_categories` after the model call: `reply`
      is the reply text or the error the call raised, `decode` is
      `json.loads` (`None` for a decode error). */
  function SelectionAttempt(catalogue: Catalogue, reply: Result<string>, decode: string -> Option<Json>,
                            floatOfString: string -> Option<real>): (r: Result<seq<SelectedCategory>>)
    ensures reply.Failure? ==> r.Failure?
    ensures reply.Success? && JsonBlock(reply.value).Failure? ==> r.Failure?
    ensures reply.Success? && JsonBlock(reply.value).Success? && decode(JsonBlock(reply.value).value).None? ==> r.Failure?
    ensures reply.Success? && JsonBlock(reply.value).Success? && decode(JsonBlock(reply.value).value).Some? ==>
      var proposals := Proposals(decode(JsonBlock(reply.value).value).value);
      && (proposals.Failure? ==> r == Failure(proposals.error))
      && (proposals.Success? ==> r == CreateSelected(catalogue, proposals.value, floatOfString))
    ensures r.Success? ==> forall k :: 0 <= k < |r.value| ==> FindCategoryInfo(catalogue, r.value[k].categoryId).Some?
  {
    match reply
    case Failure(e) => Failure(e)
    case Success(content) =>
      match JsonBlock(content)
      case Failure(e) => Failure(e)
      case Success(block) =>
        match decode(block)
        case None => Failure("JSONDecodeError")
        case Some(parsed) =>
          match Proposals(parsed)
          case Failure(e) => Failure(e)
          case Success(items) => CreateSelected(catalogue, items, floatOfString)
  }

  /** `select_categories`: whatever raises, the default selection. */
  function SelectCategories(catalogue: Catalogue, reply: Result<string>, decode: string -> Option<Json>,
                            floatOfString: string -> Option<real>): (r: seq<SelectedCategory>)
    ensures SelectionAttempt(catalogue, reply, decode, floatOfString).Failure? ==> r == DefaultCategories(catalogue)
    ensures SelectionAttempt(catalogue, reply, decode, floatOfString).Success? ==>
      r == SelectionAttempt(catalogue, reply, decode, floatOfString).value
    ensures reply.Success? && ('{' !in reply.value || '}' !in reply.value) ==> r == DefaultCategories(catalogue)
    ensures forall k :: 0 <= k < |r| ==> FindCategoryInfo(catalogue, r[k].categoryId).Some?
  {
    match SelectionAttempt(catalogue, reply, decode, floatOfString)
    case Failure(_) =>
      DefaultsAreInCatalogue(catalogue);
      DefaultCategories(catalogue)
    case Success(selected) => selected
  }

  /** The default selection names a catalogue entry. */
  lemma DefaultsAreInCatalogue(catalogue: Catalogue)
    ensures forall k :: 0 <= k < |DefaultCategories(catalogue)| ==>
      FindCategoryInfo(catalogue, DefaultCategories(catalogue)[k].categoryId).Some?
  {
    if |DefaultCategories(catalogue)| == 1 {
      var k :| 0 <= k < |catalogue| && catalogue[k].info.id == DefaultId;
      FindIsFirstInVisitOrder(catalogue, DefaultId);
      FlattenHolds(catalogue, k);
    }
  }

  lemma {:induction false} FlattenHolds(catalogue: Catalogue, k: int)
    requires 0 <= k < |catalogue|
    ensures exists i :: 0 <= i < |Flatten(catalogue)| && Flatten(catalogue)[i] == catalogue[k].info
  {
    var f := Flatten(catalogue);
    if k == 0 {
      assert f[0] == catalogue[0].info;
    } else {
      FlattenHolds(catalogue[1..], k - 1);
      var i :| 0 <= i < |Flatten(catalogue[1..])| && Flatten(catalogue[1..])[i] == catalogue[1..][k - 1].info;
      var off := 1 + |catalogue[0].subs|;
      assert f[off + i] == Flatten(catalogue[1..])[i];
    }
  }

  /** A reply whose JSON block decodes to proposals that are all created
      without raising gives exactly the created selection, not the defaults. */
  lemma DecodedReplyIsSelected(catalogue: Catalogue, content: string, decode: string -> Option<Json>,
                               floatOfString: string -> Option<real>, parsed: Json, items: seq<Json>)
    requires JsonBlock(content).Success? && decode(JsonBlock(content).value) == Some(parsed)
    requires Proposals(parsed) == Success(items)
    requires CreateSelected(catalogue, items, floatOfString).Success?
    ensures SelectCategories(catalogue, Success(content), decode, floatOfString)
            == CreateSelected(catalogue, items, floatOfString).value
  {
  }

  /** A well-formed answer that selects nothing gives no categories, not
      the defaults: the fallback is for errors only. */
  lemma EmptySelectionIsNotAnError(catalogue: Catalogue, content: string, decode: string -> Option<Json>,
                                   floatOfString: string -> Option<real>)
    requires JsonBlock(content).Success?
    requires decode(JsonBlock(content).value) == Some(JObj(map["selected_categories" := JArr([])]))
    ensures SelectCategories(catalogue, Success(content), decode, floatOfString) == []
  {
  }
}
