/**
 * The request checks of `GET /api/v1/random` (src/app/api/v1/random/route.ts): the API
 * key, the optional rating bounds and the optional comma-separated theme list, ending in
 * either an error response or the `where` filter handed to the database query.
 */
module RandomRoute {
  import opened Wrappers
  import opened JsStrings

  const MinRating: int := 0
  const MaxRating: int := 5000
  const MaxThemes: nat := 10

  // The error messages of the handler's JSON error bodies
  const MinNotANumber: string := "Invalid ratingMin: must be a number"
  const MinOutOfRange: string := "Invalid ratingMin: must be between 0 and 5000"
  const MaxNotANumber: string := "Invalid ratingMax: must be a number"
  const MaxOutOfRange: string := "Invalid ratingMax: must be between 0 and 5000"
  const MaxBelowMin: string := "ratingMax must be greater than or equal to ratingMin"
  const TooManyThemes: string := "Too many themes specified (maximum 10)"
  const ConfigError: string := "Server configuration error"
  const UnauthorizedError: string := "Unauthorized"

  /** Prisma's `IntFilter` as the route fills it: `gte` from ratingMin, `lte` from ratingMax. */
  datatype RatingFilter = RatingFilter(gte: Option<int>, lte: Option<int>)

  /**
   * `PuzzleWhereInput`: the rating condition, and the `AND` list with one
   * "has a theme with this slug" clause per requested slug.
   */
  datatype PuzzleWhere = PuzzleWhere(rating: Option<RatingFilter>, allThemes: Option<seq<string>>)

  datatype Response = Reject(status: int, message: string) | Query(filter: PuzzleWhere)

  /** The request: the server's `API_KEY`, the `X-API-Key` header and the three query parameters. */
  datatype Request = Request(apiKey: Option<string>, header: Option<string>,
                             themes: Option<string>, ratingMin: Option<string>, ratingMax: Option<string>)

  /** `themes.split(',').map(t => t.trim()).filter(Boolean)`. */
  function ThemeSlugs(param: string): seq<string> {
    DropEmpty(TrimAll(Split(param, ',')))
  }

  function TrimAll(xs: seq<string>): (r: seq<string>)
    ensures |r| == |xs| && forall k :: 0 <= k < |r| ==> r[k] == Trim(xs[k])
  {
    if xs == [] then [] else [Trim(xs[0])] + TrimAll(xs[1..])
  }

  /**
   * One rating parameter: absent when not given or empty; otherwise `parseInt` of it,
   * which must be a number within [0, 5000].
   */
  function RatingBound(param: Option<string>, notANumber: string, outOfRange: string): Result<Option<int>, string> {
    if !Truthy(param) then Success(None)
    else
      var v := ParseInt(param.value);
      if v.None? then Failure(notANumber)
      else if v.value < MinRating || v.value > MaxRating then Failure(outOfRange)
      else Success(v)
  }

  function CheckRatings(ratingMin: Option<string>, ratingMax: Option<string>): Result<RatingFilter, string> {
    var lo := RatingBound(ratingMin, MinNotANumber, MinOutOfRange);
    if lo.Failure? then Failure(lo.error)
    else
      var hi := RatingBound(ratingMax, MaxNotANumber, MaxOutOfRange);
      if hi.Failure? then Failure(hi.error)
      else if lo.value.Some? && lo.value.value != 0 && hi.value.Some? && hi.value.value < lo.value.value then
        Failure(MaxBelowMin)
      else Success(RatingFilter(lo.value, hi.value))
  }

  function CheckThemes(themes: Option<string>): Result<Option<seq<string>>, string> {
    var slugs := if Truthy(themes) then ThemeSlugs(themes.value) else [];
    if |slugs| > MaxThemes then Failure(TooManyThemes)
    else Success(if slugs == [] then None else Some(slugs))
  }

  function Decide(req: Request): Response {
    if !Truthy(req.apiKey) then Reject(500, ConfigError)
    else if !Truthy(req.header) || req.header.value != req.apiKey.value then Reject(401, UnauthorizedError)
    else
      var ratings := CheckRatings(req.ratingMin, req.ratingMax);
      if ratings.Failure? then Reject(400, ratings.error)
      else
        var themes := CheckThemes(req.themes);
        if themes.Failure? then Reject(400, themes.error)
        else
          var cond := ratings.value;
          Query(PuzzleWhere(if cond.gte.None? && cond.lte.None? then None else Some(cond), themes.value))
  }

  /**
   * The rating part of the handler as written: each given parameter is parsed and
   * checked with early returns, and its bound is put into the condition one field at a time.
   */
  method BuildRatingCondition(ratingMinParam: Option<string>, ratingMaxParam: Option<string>)
    returns (r: Result<RatingFilter, string>)
    ensures r == CheckRatings(ratingMinParam, ratingMaxParam)
  {
    var ratingCondition := RatingFilter(None, None);
    if Truthy(ratingMinParam) {
      var ratingMin := ParseInt(ratingMinParam.value);
      if ratingMin.None? {
        return Failure(MinNotANumber);
      }
      if ratingMin.value < MinRating || ratingMin.value > MaxRating {
        return Failure(MinOutOfRange);
      }
      ratingCondition := ratingCondition.(gte := ratingMin);
    }
    assert RatingBound(ratingMinParam, MinNotANumber, MinOutOfRange)
        == Success(ratingCondition.gte);
    if Truthy(ratingMaxParam) {
      var ratingMax := ParseInt(ratingMaxParam.value);
      if ratingMax.None? {
        return Failure(MaxNotANumber);
      }
      if ratingMax.value < MinRating || ratingMax.value > MaxRating {
        return Failure(MaxOutOfRange);
      }
      // `ratingCondition.gte && ...`: a gte of 0 is falsy and skips the comparison
      if ratingCondition.gte.Some? && ratingCondition.gte.value != 0 && ratingMax.value < ratingCondition.gte.value {
        return Failure(MaxBelowMin);
      }
      ratingCondition := ratingCondition.(lte := ratingMax);
    }
    return Success(ratingCondition);
  }

  /**
   * The handler as written: the key checks, the rating condition, then the `where`
   * object filled in one field at a time, with an early return for every error.
   */
  method Get(req: Request) returns (r: Response)
    ensures r == Decide(req)
  {
    if !Truthy(req.apiKey) {
      return Reject(500, ConfigError);
    }
    var apiKey := req.header;
    if !Truthy(apiKey) || apiKey.value != req.apiKey.value {
      return Reject(401, UnauthorizedError);
    }
    var filter := PuzzleWhere(None, None);
    var ratings := BuildRatingCondition(req.ratingMin, req.ratingMax);
    if ratings.Failure? {
      return Reject(400, ratings.error);
    }
    var ratingCondition := ratings.value;
    if ratingCondition.gte.Some? || ratingCondition.lte.Some? {
      filter := filter.(rating := Some(ratingCondition));
    }
    if Truthy(req.themes) {
      var themesArray := ThemeSlugs(req.themes.value);
      if |themesArray| > MaxThemes {
        return Reject(400, TooManyThemes);
      }
      if |themesArray| > 0 {
        filter := filter.(allThemes := Some(themesArray));
      }
    }
    return Query(filter);
  }

  /** An accepted request passed every check, and its filter is built from the checked parts. */
  lemma DecideQuery(req: Request)
    requires Decide(req).Query?
    ensures Authorized(req)
    ensures CheckRatings(req.ratingMin, req.ratingMax).Success? && CheckThemes(req.themes).Success?
    ensures var cond := CheckRatings(req.ratingMin, req.ratingMax).value;
            Decide(req).filter == PuzzleWhere(if cond.gte.None? && cond.lte.None? then None else Some(cond),
                                              CheckThemes(req.themes).value)
  {
  }

  /** Accepted bounds are the checked parameters, each within [0, 5000], and a non-zero lower bound is at most the upper one. */
  lemma CheckRatingsSpec(ratingMin: Option<string>, ratingMax: Option<string>)
    ensures var c := CheckRatings(ratingMin, ratingMax);
            c.Success? ==>
              && c.value.gte == (if Truthy(ratingMin) then ParseInt(ratingMin.value) else None)
              && c.value.lte == (if Truthy(ratingMax) then ParseInt(ratingMax.value) else None)
              && (Truthy(ratingMin) ==> c.value.gte.Some?) && (Truthy(ratingMax) ==> c.value.lte.Some?)
              && (c.value.gte.Some? ==> MinRating <= c.value.gte.value <= MaxRating)
              && (c.value.lte.Some? ==> MinRating <= c.value.lte.value <= MaxRating)
              && (c.value.gte.Some? && c.value.lte.Some? ==> c.value.gte.value <= c.value.lte.value)
  {
    var lo := RatingBound(ratingMin, MinNotANumber, MinOutOfRange);
    var hi := RatingBound(ratingMax, MaxNotANumber, MaxOutOfRange);
    RatingBoundInRange(ratingMin, MinNotANumber, MinOutOfRange);
    RatingBoundInRange(ratingMax, MaxNotANumber, MaxOutOfRange);
  }

  /** A rating that passes its checks lies within [0, 5000]. */
  lemma RatingBoundInRange(param: Option<string>, notANumber: string, outOfRange: string)
    ensures var b := RatingBound(param, notANumber, outOfRange);
            b.Success? && b.value.Some? ==> MinRating <= b.value.value <= MaxRating
  {
  }

  /** Without a configured `API_KEY` the answer is 500, whatever the header and the query. */
  lemma UnconfiguredIs500(req: Request)
    requires !Truthy(req.apiKey)
    ensures Decide(req) == Reject(500, ConfigError)
  {
  }

  /**
   * With a key configured, a missing or different header, and only that, gives 401, and
   * then nothing in the query matters.
   */
  lemma WrongKeyIs401(req: Request, themes: Option<string>, ratingMin: Option<string>, ratingMax: Option<string>)
    requires Truthy(req.apiKey)
    ensures (req.header.None? || req.header.value != req.apiKey.value) <==> Decide(req) == Reject(401, UnauthorizedError)
    ensures Decide(req) == Reject(401, UnauthorizedError) ==>
              Decide(req.(themes := themes, ratingMin := ratingMin, ratingMax := ratingMax)) == Reject(401, UnauthorizedError)
  {
  }

  /** The request once the key checks have passed. */
  predicate Authorized(req: Request) {
    Truthy(req.apiKey) && Truthy(req.header) && req.header.value == req.apiKey.value
  }

  /** An empty parameter is the same as a missing one (`if (param)` is false for ""). */
  lemma EmptyParamIsAbsent(req: Request)
    ensures req.ratingMin == Some("") ==> Decide(req) == Decide(req.(ratingMin := None))
    ensures req.ratingMax == Some("") ==> Decide(req) == Decide(req.(ratingMax := None))
    ensures req.themes == Some("") ==> Decide(req) == Decide(req.(themes := None))
  {
    assert !Truthy(Some(""));
    assert CheckRatings(Some(""), req.ratingMax) == CheckRatings(None, req.ratingMax);
    assert CheckRatings(req.ratingMin, Some("")) == CheckRatings(req.ratingMin, None);
    assert CheckThemes(Some("")) == CheckThemes(None);
  }

  /**
   * Errors come in a fixed order: a ratingMin error whatever ratingMax and themes are,
   * then a ratingMax error whatever themes are.
   */
  lemma ErrorOrder(req: Request, ratingMax: Option<string>, themes: Option<string>)
    requires Authorized(req)
    ensures var lo := RatingBound(req.ratingMin, MinNotANumber, MinOutOfRange);
            lo.Failure? ==> && Decide(req) == Reject(400, lo.error)
                            && Decide(req.(ratingMax := ratingMax, themes := themes)) == Decide(req)
    ensures CheckRatings(req.ratingMin, req.ratingMax).Failure? ==>
              && Decide(req) == Reject(400, CheckRatings(req.ratingMin, req.ratingMax).error)
              && Decide(req.(themes := themes)) == Decide(req)
  {
  }

  /** A rating parameter that is not a number, or is outside [0, 5000], is a 400. */
  lemma BadRatingIs400(req: Request)
    requires Authorized(req)
    ensures Truthy(req.ratingMin) && ParseInt(req.ratingMin.value).None? ==>
              Decide(req) == Reject(400, MinNotANumber)
    ensures Truthy(req.ratingMin) && ParseInt(req.ratingMin.value).Some?
            && !(MinRating <= ParseInt(req.ratingMin.value).value <= MaxRating) ==>
              Decide(req) == Reject(400, MinOutOfRange)
    ensures Truthy(req.ratingMax) && ParseInt(req.ratingMax.value).None? ==>
              Decide(req).Reject? && Decide(req).status == 400
    ensures Truthy(req.ratingMax) && ParseInt(req.ratingMax.value).Some?
            && !(MinRating <= ParseInt(req.ratingMax.value).value <= MaxRating) ==>
              Decide(req).Reject? && Decide(req).status == 400
  {
  }

  /**
   * Both bounds accepted means ratingMin <= ratingMax, also when ratingMin is 0 and the
   * route skips the comparison; a ratingMax below a valid ratingMin is a 400.
   */
  lemma BoundsOrdered(req: Request)
    requires Authorized(req)
    ensures Decide(req).Query? && Decide(req).filter.rating.Some? ==>
              var c := Decide(req).filter.rating.value;
              && (c.gte.Some? ==> MinRating <= c.gte.value <= MaxRating)
              && (c.lte.Some? ==> MinRating <= c.lte.value <= MaxRating)
              && (c.gte.Some? && c.lte.Some? ==> c.gte.value <= c.lte.value)
    ensures var lo := RatingBound(req.ratingMin, MinNotANumber, MinOutOfRange);
            var hi := RatingBound(req.ratingMax, MaxNotANumber, MaxOutOfRange);
            lo.Success? && lo.value.Some? && hi.Success? && hi.value.Some? && hi.value.value < lo.value.value ==>
              Decide(req) == Reject(400, MaxBelowMin)
  {
    if Decide(req).Query? {
      DecideQuery(req);
      CheckRatingsSpec(req.ratingMin, req.ratingMax);
    }
  }

  /**
   * An accepted filter has a rating condition exactly when a rating parameter was given,
   * and then its bounds are the parsed parameters.
   */
  lemma RatingConditionIff(req: Request)
    requires Decide(req).Query?
    ensures Decide(req).filter.rating.Some? <==> Truthy(req.ratingMin) || Truthy(req.ratingMax)
    ensures Decide(req).filter.rating.Some? ==>
              && Decide(req).filter.rating.value.gte == (if Truthy(req.ratingMin) then ParseInt(req.ratingMin.value) else None)
              && Decide(req).filter.rating.value.lte == (if Truthy(req.ratingMax) then ParseInt(req.ratingMax.value) else None)
  {
    DecideQuery(req);
    CheckRatingsSpec(req.ratingMin, req.ratingMax);
  }

  /**
   * When the ratings are fine, more than 10 listed themes (duplicates counted) is a 400;
   * otherwise the AND list holds one clause per listed theme, in order, and is left out
   * when there are none.
   */
  lemma ThemeClauses(req: Request)
    requires Authorized(req) && CheckRatings(req.ratingMin, req.ratingMax).Success?
    ensures var slugs := if Truthy(req.themes) then ThemeSlugs(req.themes.value) else [];
            && (|slugs| > MaxThemes <==> Decide(req) == Reject(400, TooManyThemes))
            && (|slugs| <= MaxThemes ==> Decide(req).Query? && Decide(req).filter.allThemes == (if slugs == [] then None else Some(slugs)))
  {
  }

  /** Each listed theme is non-empty and has no surrounding whitespace. */
  lemma ThemeSlugsTrimmed(param: string)
    ensures forall k :: 0 <= k < |ThemeSlugs(param)| ==>
              ThemeSlugs(param)[k] != "" && Trim(ThemeSlugs(param)[k]) == ThemeSlugs(param)[k]
  {
    var trimmed := TrimAll(Split(param, ','));
    forall k | 0 <= k < |trimmed|
      ensures Trim(trimmed[k]) == trimmed[k]
    {
      TrimIdempotent(Split(param, ',')[k]);
    }
    var r := ThemeSlugs(param);
    forall k | 0 <= k < |r|
      ensures r[k] != "" && Trim(r[k]) == r[k]
    {
      assert r[k] in trimmed;
    }
  }

  /** Slugs joined with commas are read back one for one, in order, duplicates included. */
  lemma ThemeSlugsJoin(slugs: seq<string>)
    requires |slugs| >= 1
    requires forall k :: 0 <= k < |slugs| ==> slugs[k] != "" && ',' !in slugs[k] && Trim(slugs[k]) == slugs[k]
    ensures ThemeSlugs(Join(slugs, ',')) == slugs
  {
    SplitJoin(slugs, ',');
    assert TrimAll(slugs) == slugs;
    DropEmptyNone(slugs);
  }
}
