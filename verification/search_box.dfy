/** The query handling of `handleSearch` in components/Search/SearchBox.tsx:
    a comma-separated query is cut into trimmed, non-empty ingredient names,
    and the number of names decides which search endpoint is asked.  The
    request itself, URL encoding and navigation are not modelled. */
module SearchBox {
  import opened Text

  /** What `handleSearch` does with a query. */
  datatype Request =
    | Rejected                        // blank query: an alert, no request
    | ByIngredients(param: string)    // several names, joined by commas
    | General(query: string)          // one name or none: the whole trimmed query

  /** Trims every piece and drops the empty ones, keeping their order. */
  function CleanPieces(parts: seq<string>): (r: seq<string>)
    ensures |r| <= |parts|
    ensures forall i :: 0 <= i < |r| ==> r[i] != "" && Trim(r[i]) == r[i]
  {
    if parts == [] then []
    else
      var t := Trim(parts[0]);
      TrimIdempotent(parts[0]);
      (if t == "" then [] else [t]) + CleanPieces(parts[1..])
  }

  /** Cleaning distributes over concatenation: pieces are handled one at a
      time and their order is kept. */
  lemma {:induction false} CleanPiecesAppend(a: seq<string>, b: seq<string>)
    ensures CleanPieces(a + b) == CleanPieces(a) + CleanPieces(b)
  {
    if a != [] {
      assert (a + b)[0] == a[0] && (a + b)[1..] == a[1..] + b;
      CleanPiecesAppend(a[1..], b);
      var t := Trim(a[0]);
      var head := if t == "" then [] else [t];
      assert CleanPieces(a + b) == head + CleanPieces(a[1..] + b);
      assert CleanPieces(a) == head + CleanPieces(a[1..]);
    } else {
      assert a + b == b;
    }
  }

  /** A name is produced exactly when some piece trims to it and it is not empty. */
  lemma {:induction false} CleanPiecesMembership(parts: seq<string>, x: string)
    ensures x in CleanPieces(parts) <==> x != "" && exists k :: 0 <= k < |parts| && Trim(parts[k]) == x
  {
    if parts != [] {
      CleanPiecesMembership(parts[1..], x);
      if x != "" && (exists k :: 0 <= k < |parts| && Trim(parts[k]) == x) {
        var k :| 0 <= k < |parts| && Trim(parts[k]) == x;
        if k > 0 {
          assert Trim(parts[1..][k - 1]) == x;
        }
      }
    }
  }

  /** The ingredient names of a query. */
  function Ingredients(query: string): seq<string> {
    CleanPieces(Split(query, ','))
  }

  /** The names are trimmed, non-empty and free of commas, and there are at
      most one more of them than there are commas in the query. */
  lemma IngredientsShape(query: string)
    ensures var names := Ingredients(query);
            |names| <= CountChar(query, ',') + 1 &&
            forall i :: 0 <= i < |names| ==> names[i] != "" && Trim(names[i]) == names[i] && ',' !in names[i]
  {
    SplitCount(query, ',');
    var parts := Split(query, ',');
    var names := Ingredients(query);
    SplitPiecesHaveNoSeparator(query, ',');
    forall i | 0 <= i < |names|
      ensures ',' !in names[i]
    {
      CleanPiecesMembership(parts, names[i]);
      var k :| 0 <= k < |parts| && Trim(parts[k]) == names[i];
      TrimCutsOnlySpace(parts[k]);
    }
  }

  /** `handleSearch`'s choice of request. */
  function Search(query: string): (r: Request)
    ensures r == Rejected <==> IsBlank(query)
    ensures r.ByIngredients? <==> !IsBlank(query) && |Ingredients(query)| > 1
    ensures r.ByIngredients? ==> r.param == Join(Ingredients(query), ',')
    ensures r.General? ==> r.query == Trim(query) && r.query != ""
  {
    TrimEmptyIffBlank(query);
    if Trim(query) == "" then Rejected
    else
      var names := Ingredients(query);
      if |names| > 1 then ByIngredients(Join(names, ','))
      else General(Trim(query))
  }

  /** The `searchType` passed to the results screen, computed from the number
      of ingredient names.  For a query that is searched at all, it names the
      request that was sent. */
  function SearchType(query: string): (t: string)
    ensures t == "multi-ingredients" || t == "general"
    ensures !IsBlank(query) ==> (t == "multi-ingredients" <==> Search(query).ByIngredients?)
    ensures !IsBlank(query) ==> (t == "general" <==> Search(query).General?)
  {
    if |Ingredients(query)| > 1 then "multi-ingredients" else "general"
  }

  /** The server can recover the exact ingredient names from the parameter by
      splitting it on commas. */
  lemma IngredientParamRoundTrip(query: string)
    requires Search(query).ByIngredients?
    ensures Split(Search(query).param, ',') == Ingredients(query)
  {
    IngredientsShape(query);
    SplitJoin(Ingredients(query), ',');
  }
}
