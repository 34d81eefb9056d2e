/**
 * The in-memory rating store: for each date, for each item, the ratings
 * submitted so far in submission order; and the validation a rating
 * submission passes before it is stored.
 */
module RatingStore {
  import opened Wrappers
  import opened Text

  /** date -> item -> ratings, as the `RATINGS` dictionary holds them. */
  type Ratings = map<string, map<string, seq<int>>>

  /** One accepted submission. */
  datatype Submission = Submission(date: string, item: string, rating: int)

  const MinRating: int := 1
  const MaxRating: int := 5

  /** `get_ratings(date)`: the item map of `date`, or the empty mapping for a date never recorded. */
  function ForDate(m: Ratings, date: string): map<string, seq<int>> {
    if date in m then m[date] else map[]
  }

  /** The ratings stored for (date, item); empty when there are none. */
  function Lookup(m: Ratings, date: string, item: string): seq<int> {
    var day := ForDate(m, date);
    if item in day then day[item] else []
  }

  /** What `rate` does to `RATINGS`: create the date and item entries if absent, then append. */
  function Record(m: Ratings, date: string, item: string, rating: int): Ratings {
    var day := ForDate(m, date);
    m[date := day[item := Lookup(m, date, item) + [rating]]]
  }

  /** A date never recorded yields the empty mapping. */
  lemma UnseenDateEmpty(m: Ratings, date: string)
    requires date !in m
    ensures ForDate(m, date) == map[]
  {
  }

  /**
   * Recording appends the rating after the earlier ones for (date, item), creates the date and item
   * entries, and changes no other (date, item) pair and no other date.
   */
  lemma RecordEffect(m: Ratings, date: string, item: string, rating: int)
    ensures var r := Record(m, date, item, rating);
            && Lookup(r, date, item) == Lookup(m, date, item) + [rating]
            && r.Keys == m.Keys + {date}
            && ForDate(r, date).Keys == ForDate(m, date).Keys + {item}
            && (forall d :: d != date && d in m ==> r[d] == m[d])
            && (forall d, i :: (d, i) != (date, item) ==> Lookup(r, d, i) == Lookup(m, d, i))
  {
  }

  /** The ratings of (date, item) among `log`, in the order submitted. */
  function History(log: seq<Submission>, date: string, item: string): seq<int> {
    if log == [] then []
    else
      var s := log[|log| - 1];
      History(log[..|log| - 1], date, item) + (if s.date == date && s.item == item then [s.rating] else [])
  }

  /** The store after recording every submission of `log`, oldest first. */
  function Replay(m: Ratings, log: seq<Submission>): Ratings {
    if log == [] then m
    else
      var s := log[|log| - 1];
      Record(Replay(m, log[..|log| - 1]), s.date, s.item, s.rating)
  }

  /**
   * The store is append-only: after any sequence of submissions, (date, item) holds what it held
   * before followed by exactly the ratings submitted for it, in submission order.
   */
  lemma {:induction false} ReplayHistory(m: Ratings, log: seq<Submission>, date: string, item: string)
    ensures Lookup(Replay(m, log), date, item) == Lookup(m, date, item) + History(log, date, item)
  {
    if log != [] {
      var s := log[|log| - 1];
      var before := Replay(m, log[..|log| - 1]);
      ReplayHistory(m, log[..|log| - 1], date, item);
      RecordEffect(before, s.date, s.item, s.rating);
    }
  }

  /** Every stored rating lies in 1..5. */
  predicate InRange(ratings: seq<int>) {
    forall k :: 0 <= k < |ratings| ==> MinRating <= ratings[k] <= MaxRating
  }

  ghost predicate AllInRange(m: Ratings) {
    forall d, i :: d in m && i in m[d] ==> InRange(m[d][i])
  }

  /** Recording a rating in 1..5 keeps every stored rating in 1..5. */
  lemma RecordKeepsRange(m: Ratings, date: string, item: string, rating: int)
    requires AllInRange(m)
    requires MinRating <= rating <= MaxRating
    ensures AllInRange(Record(m, date, item, rating))
  {
    var r := Record(m, date, item, rating);
    forall d, i | d in r && i in r[d] ensures InRange(r[d][i]) {
      if d == date && i == item {
        assert r[d][i] == Lookup(m, date, item) + [rating];
      }
    }
  }

  // -------------------------------------------------------------- validation

  /**
   * A JSON body of a rating request: `keys` are the keys the object has (an object with none is
   * falsy); `item` and `date` are the string values, "" when absent; `rating` is the value once
   * coerced with `int()`, None when absent or not coercible.
   */
  datatype RateBody = RateBody(keys: set<string>, item: string, date: string, rating: Option<int>)

  datatype RateError = InvalidJson | MissingItemOrDate | BadRating

  /** The `error` text of each rejection. */
  function ErrorMessage(e: RateError): string {
    match e
    case InvalidJson => "Invalid JSON"
    case MissingItemOrDate => "Missing item or date"
    case BadRating => "Rating must be an integer between 1 and 5"
  }

  /** The three rejections read differently, so the text tells the client which check failed. */
  lemma ErrorMessagesDistinct(e1: RateError, e2: RateError)
    ensures ErrorMessage(e1) == ErrorMessage(e2) <==> e1 == e2
  {
    if e1 != e2 {
      assert ErrorMessage(e1)[0] != ErrorMessage(e2)[0];
    }
  }

  /**
   * The checks of `rate`, in order: a missing or empty body, then a blank item or date
   * (before the rating is looked at), then a rating that is not an integer in 1..5.
   * An accepted submission carries the stripped item and date.
   */
  function Validate(body: Option<RateBody>): (r: Result<Submission, RateError>)
    ensures r.Ok? ==> MinRating <= r.value.rating <= MaxRating
    ensures r.Ok? ==> r.value.item != "" && r.value.date != ""
  {
    if body.None? || body.value.keys == {} then Err(InvalidJson)
    else
      var b := body.value;
      var item := Strip(b.item);
      var date := Strip(b.date);
      if item == "" || date == "" then Err(MissingItemOrDate)
      else if b.rating.None? || b.rating.value < MinRating || b.rating.value > MaxRating then Err(BadRating)
      else Ok(Submission(date, item, b.rating.value))
  }

  /** A missing body, or one with no keys, is invalid JSON whatever else it holds. */
  lemma ValidateEmptyBody(body: Option<RateBody>)
    requires body.None? || body.value.keys == {}
    ensures Validate(body) == Err(InvalidJson)
  {
  }

  /**
   * Of a body with a non-blank item and date, exactly the integer ratings 1..5 are accepted
   * (both ends included); an absent or non-integer rating, or one out of range, is a rating error.
   * The accepted submission carries the stripped item and date.
   */
  lemma ValidateBounds(keys: set<string>, item: string, date: string, rating: Option<int>)
    requires keys != {}
    requires Strip(item) != "" && Strip(date) != ""
    ensures var r := Validate(Some(RateBody(keys, item, date, rating)));
            && (r.Ok? <==> rating.Some? && 1 <= rating.value <= 5)
            && (r.Ok? ==> r.value == Submission(Strip(date), Strip(item), rating.value))
            && (r.Err? ==> r.error == BadRating)
  {
  }

  /** A blank item or date is reported as such whatever the rating is. */
  lemma ValidateItemDateFirst(keys: set<string>, item: string, date: string, rating: Option<int>)
    requires keys != {}
    requires Strip(item) == "" || Strip(date) == ""
    ensures Validate(Some(RateBody(keys, item, date, rating))) == Err(MissingItemOrDate)
  {
  }

  /** An item or date made only of whitespace is blank. */
  lemma WhitespaceItemRejected(keys: set<string>, item: string, date: string, rating: Option<int>)
    requires keys != {}
    requires forall k :: 0 <= k < |item| ==> IsSpace(item[k])
    ensures Validate(Some(RateBody(keys, item, date, rating))) == Err(MissingItemOrDate)
  {
    StripBlank(item);
  }
}
