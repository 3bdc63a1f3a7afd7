/** The viewing history screen (app/view_history.tsx): the entries the server
    returns, either "type:id" strings or loose objects, are normalised into
    history items, sorted newest first, and shown with an image and a title.
    Parsing of the time stamps (`Date.parse`) is a parameter. */
module ViewHistory {
  import opened Wrappers
  import opened Text

  /** A JSON scalar as the screen may receive it. */
  datatype Scalar = Undefined | Null | Bool(b: bool) | Num(n: int) | Str(s: string)

  predicate Truthy(v: Scalar) {
    match v
    case Undefined => false
    case Null => false
    case Bool(b) => b
    case Num(n) => n != 0
    case Str(s) => s != ""
  }

  /** JavaScript's `String(v)`. */
  function ToStr(v: Scalar): string {
    match v
    case Undefined => "undefined"
    case Null => "null"
    case Bool(b) => if b then "true" else "false"
    case Num(n) => IntToString(n)
    case Str(s) => s
  }

  /** One raw history entry. */
  datatype Raw =
    | RawString(text: string)
    | RawObject(kind: Scalar, id: Scalar, name: Scalar, image: Scalar, ts: Scalar)
    | RawOther            // null, a number, an array: always dropped

  datatype Kind = Dish | User

  function KindName(k: Kind): string {
    match k
    case Dish => "dish"
    case User => "user"
  }

  /** The kind named by a type string, if it names one. */
  function KindOf(s: string): (k: Option<Kind>)
    ensures k.Some? <==> s == "dish" || s == "user"
    ensures k.Some? ==> KindName(k.value) == s
  {
    if s == "dish" then Some(Dish) else if s == "user" then Some(User) else None
  }

  datatype HistoryItem = HistoryItem(kind: Kind, id: string, name: Option<string>, image: Option<string>, ts: Option<string>)

  /** The string form "type:id": the id is everything after the first ':'. */
  function ParseString(s: string): (r: Option<HistoryItem>)
    ensures r.Some? ==> r.value.id != "" && r.value.name.None? && r.value.image.None? && r.value.ts.None?
  {
    var parts := Split(s, ':');
    var id := Join(parts[1..], ':');
    match KindOf(parts[0])
    case Some(k) => if id != "" then Some(HistoryItem(k, id, None, None, None)) else None
    case None => None
  }

  /** A string entry parses exactly when it is a known type, a ':' and a
      non-empty id; the id keeps any further ':'. */
  lemma ParseStringExact(s: string)
    ensures ParseString(s).Some? <==>
              exists k: Kind, id: string :: id != "" && s == KindName(k) + ":" + id
    ensures ParseString(s).Some? ==>
              s == KindName(ParseString(s).value.kind) + ":" + ParseString(s).value.id
  {
    var parts := Split(s, ':');
    var id := Join(parts[1..], ':');
    JoinSplit(s, ':');
    SplitPiecesHaveNoSeparator(s, ':');
    if |parts| == 1 {
      assert id == "";
    } else {
      assert Join(parts, ':') == parts[0] + [':'] + id;
    }
    if ParseString(s).Some? {
      var k := KindOf(parts[0]).value;
      assert s == KindName(k) + ":" + id;
    }
    if exists k: Kind, id': string :: id' != "" && s == KindName(k) + ":" + id' {
      var k: Kind, id': string :| id' != "" && s == KindName(k) + ":" + id';
      ParseKnownString(k, id');
    }
  }

  /** "type:id" for a known type parses to that type and id. */
  lemma ParseKnownString(k: Kind, id: string)
    requires id != ""
    ensures ParseString(KindName(k) + ":" + id) == Some(HistoryItem(k, id, None, None, None))
  {
    var s := KindName(k) + ":" + id;
    assert s == KindName(k) + [':'] + id;
    assert ':' !in KindName(k);
    SplitAfterPiece(KindName(k), ':', id);
    JoinSplit(id, ':');
    assert ([KindName(k)] + Split(id, ':'))[1..] == Split(id, ':');
  }

  /** The object form: a known type and a truthy id are required; the id is
      turned into a string, a name or image that is not a string becomes "",
      and the time stamp is kept only when truthy. */
  function ParseObject(kind: Scalar, id: Scalar, name: Scalar, image: Scalar, ts: Scalar): (r: Option<HistoryItem>)
    ensures r.Some? <==> (kind == Str("dish") || kind == Str("user")) && Truthy(id)
    ensures r.Some? ==> KindName(r.value.kind) == kind.s && r.value.id == ToStr(id) && r.value.id != ""
    ensures r.Some? ==> r.value.name == Some(if name.Str? then name.s else "")
    ensures r.Some? ==> r.value.image == Some(if image.Str? then image.s else "")
    ensures r.Some? ==> (r.value.ts.Some? <==> Truthy(ts))
    ensures r.Some? && r.value.ts.Some? ==> r.value.ts.value == ToStr(ts)
  {
    if (kind == Str("dish") || kind == Str("user")) && Truthy(id) then
      var k := if kind == Str("dish") then Dish else User;
      assert ToStr(id) != "" by {
        if id.Num? { assert |IntToString(id.n)| >= 1; }
      }
      Some(HistoryItem(k, ToStr(id),
                       Some(if name.Str? then name.s else ""),
                       Some(if image.Str? then image.s else ""),
                       if Truthy(ts) then Some(ToStr(ts)) else None))
    else None
  }

  function Normalize(raw: Raw): Option<HistoryItem> {
    match raw
    case RawString(s) => ParseString(s)
    case RawObject(k, id, n, img, ts) => ParseObject(k, id, n, img, ts)
    case RawOther => None
  }

  /** The entries that normalise, in their original order. */
  function NormalizeAll(raws: seq<Raw>): (items: seq<HistoryItem>)
    ensures |items| <= |raws|
    ensures forall i :: 0 <= i < |items| ==> items[i].id != ""
  {
    if raws == [] then []
    else
      (match Normalize(raws[0]) case Some(it) => [it] case None => []) + NormalizeAll(raws[1..])
  }

  /** Normalising is entry by entry: it distributes over concatenation, so the
      surviving entries keep their relative order. */
  lemma {:induction false} NormalizeAllAppend(a: seq<Raw>, b: seq<Raw>)
    ensures NormalizeAll(a + b) == NormalizeAll(a) + NormalizeAll(b)
  {
    if a == [] {
      assert a + b == b;
    } else {
      assert (a + b)[1..] == a[1..] + b;
      NormalizeAllAppend(a[1..], b);
    }
  }

  /** An item is kept exactly when its entry normalises to it. */
  lemma {:induction false} NormalizeAllMembership(raws: seq<Raw>, it: HistoryItem)
    ensures it in NormalizeAll(raws) <==> exists i :: 0 <= i < |raws| && Normalize(raws[i]) == Some(it)
  {
    if raws != [] {
      NormalizeAllMembership(raws[1..], it);
      if exists i :: 0 <= i < |raws| && Normalize(raws[i]) == Some(it) {
        var i :| 0 <= i < |raws| && Normalize(raws[i]) == Some(it);
        if i > 0 {
          assert Normalize(raws[1..][i - 1]) == Some(it);
        }
      }
    }
  }

  // ---------------------------------------------------------------------------
  // Newest first

  /** The sort key: the parsed time stamp, or 0 without one. */
  function Key(it: HistoryItem, parse: string -> int): int {
    if it.ts.Some? then parse(it.ts.value) else 0
  }

  predicate NewestFirst(items: seq<HistoryItem>, parse: string -> int) {
    forall i, j :: 0 <= i < j < |items| ==> Key(items[i], parse) >= Key(items[j], parse)
  }

  /** Places `x` before the first element that is not strictly newer. */
  function Insert(x: HistoryItem, sorted: seq<HistoryItem>, parse: string -> int): (r: seq<HistoryItem>)
    requires NewestFirst(sorted, parse)
    ensures NewestFirst(r, parse)
    ensures multiset(r) == multiset(sorted) + multiset{x}
    ensures |r| == |sorted| + 1
    ensures r[0] == x || (sorted != [] && r[0] == sorted[0])
  {
    if sorted == [] || Key(sorted[0], parse) <= Key(x, parse) then
      ConsNewestFirst(x, sorted, parse);
      [x] + sorted
    else
      var rest := Insert(x, sorted[1..], parse);
      assert sorted == [sorted[0]] + sorted[1..];
      assert multiset([sorted[0]] + rest) == multiset{sorted[0]} + multiset(rest);
      assert multiset(sorted) == multiset{sorted[0]} + multiset(sorted[1..]);
      assert Key(sorted[0], parse) >= Key(rest[0], parse);
      ConsNewestFirst(sorted[0], rest, parse);
      [sorted[0]] + rest
  }

  /** An item no older than the head of a sorted list can go in front of it. */
  lemma ConsNewestFirst(h: HistoryItem, rest: seq<HistoryItem>, parse: string -> int)
    requires NewestFirst(rest, parse)
    requires rest != [] ==> Key(h, parse) >= Key(rest[0], parse)
    ensures NewestFirst([h] + rest, parse)
  {
    var r := [h] + rest;
    forall i, j | 0 <= i < j < |r|
      ensures Key(r[i], parse) >= Key(r[j], parse)
    {
      if i == 0 {
        assert r[j] == rest[j - 1];
        assert Key(rest[0], parse) >= Key(rest[j - 1], parse) || j == 1;
      } else {
        assert r[i] == rest[i - 1] && r[j] == rest[j - 1];
      }
    }
  }

  /** The comparator `tb - ta`: newest first, entries without a time stamp
      counting as time 0, equal keys keeping their input order. */
  function SortNewestFirst(items: seq<HistoryItem>, parse: string -> int): (r: seq<HistoryItem>)
    ensures NewestFirst(r, parse)
    ensures multiset(r) == multiset(items)
  {
    if items == [] then []
    else
      assert items == [items[0]] + items[1..];
      Insert(items[0], SortNewestFirst(items[1..], parse), parse)
  }

  // ---------------------------------------------------------------------------
  // Display

  const DataPrefix: string := "data:"
  const JpegBase64Prefix: string := "data:image/jpeg;base64,"

  function Placeholder(k: Kind): string {
    match k
    case User => "https://via.placeholder.com/60?text=U"
    case Dish => "https://via.placeholder.com/60?text=D"
  }

  /** `^https?://`. */
  predicate IsHttpUrl(s: string) {
    StartsWith(s, "http://") || StartsWith(s, "https://")
  }

  /** A URI the image component can load directly. */
  predicate Displayable(s: string) {
    StartsWith(s, DataPrefix) || IsHttpUrl(s)
  }

  /** The image shown: a data URI or web URL as it is, other non-empty text as
      raw base64 JPEG data, and a per-type placeholder without an image. */
  function ImageUri(it: HistoryItem): (u: string)
    ensures Displayable(u)
    ensures it.image.Some? && Displayable(it.image.value) ==> u == it.image.value
    ensures it.image.Some? && it.image.value != "" && !Displayable(it.image.value) ==>
              u == JpegBase64Prefix + it.image.value
    ensures it.image.None? || it.image.value == "" ==> u == Placeholder(it.kind)
  {
    match it.image
    case Some(img) =>
      if img == "" then PlaceholderDisplayable(it.kind); Placeholder(it.kind)
      else if StartsWith(img, DataPrefix) then img
      else if IsHttpUrl(img) then img
      else
        assert StartsWith(JpegBase64Prefix + img, DataPrefix) by {
          assert (JpegBase64Prefix + img)[..5] == DataPrefix;
        }
        JpegBase64Prefix + img
    case None => PlaceholderDisplayable(it.kind); Placeholder(it.kind)
  }

  lemma PlaceholderDisplayable(k: Kind)
    ensures StartsWith(Placeholder(k), "https://")
  {
    assert Placeholder(k)[..8] == "https://";
  }

  /** Feeding a shown image back in shows the same image. */
  lemma ImageUriStable(it: HistoryItem)
    ensures ImageUri(it.(image := Some(ImageUri(it)))) == ImageUri(it)
  {
  }

  /** The title: the name when it is not blank, otherwise "{type} {id}". */
  function Title(it: HistoryItem): (t: string)
    ensures it.name.Some? && !IsBlank(it.name.value) ==> t == it.name.value
    ensures it.name.None? || IsBlank(it.name.value) ==> t == KindName(it.kind) + " " + it.id
    ensures !IsBlank(t)
  {
    match it.name
    case Some(n) =>
      TrimEmptyIffBlank(n);
      if Trim(n) != "" then n else Fallback(it)
    case None => Fallback(it)
  }

  function Fallback(it: HistoryItem): (t: string)
    ensures t == KindName(it.kind) + " " + it.id && !IsBlank(t)
  {
    var t := KindName(it.kind) + " " + it.id;
    assert !IsSpace(t[0]);
    t
  }
}
