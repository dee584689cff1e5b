/**
 * organizer/create_event.php: an organizer's new event. Every failed check adds its own error
 * and the checks all run; with no error the event row (with every ticket available) and one
 * image row per non-blank URL line are inserted in one transaction, which a database error
 * rolls back whole.
 */
module CreateEvent {
  import opened Wrappers
  import Text
  import opened Php
  import Functions
  import Security
  import opened Db

  const LoginPage := "../auth/login.php"
  /** The errors the form shows. */
  datatype Error = Token | Title | Description | Date | Past | Venue | Price | Tickets
                 | Url(url: string) | Database(message: string)

  /** The text shown for an error; `escape` is htmlspecialchars. */
  function Message(php: Builtins, e: Error): string {
    match e
    case Token => "Invalid security token."
    case Title => "Event title is required."
    case Description => "Event description is required."
    case Date => "Event date is required."
    case Past => "Event date must be in the future."
    case Venue => "Venue is required."
    case Price => "Valid price is required."
    case Tickets => "Valid number of tickets is required."
    case Url(u) => "Invalid image URL: " + php.escape(u)
    case Database(m) => "Database error occurred: " + m
  }

  /** $_POST[$key] ?? '' */
  function PostField(post: map<string, string>, key: string): string {
    if key in post then post[key] else ""
  }

  /** The six text fields after cleanInput. */
  datatype Fields = Fields(title: string, description: string, eventDate: string, venue: string,
                           price: string, totalTickets: string)

  function CleanFields(php: Builtins, post: map<string, string>): Fields {
    Fields(Functions.CleanString(php, PostField(post, "title")),
           Functions.CleanString(php, PostField(post, "description")),
           Functions.CleanString(php, PostField(post, "event_date")),
           Functions.CleanString(php, PostField(post, "venue")),
           Functions.CleanString(php, PostField(post, "price")),
           Functions.CleanString(php, PostField(post, "total_tickets")))
  }

  // ---------------------------------------------------------------------------------------------
  // The image URL list
  // ---------------------------------------------------------------------------------------------

  /** array_map('trim', $lines). */
  function TrimAll(lines: seq<string>): (r: seq<string>)
    ensures |r| == |lines| && forall i :: 0 <= i < |lines| ==> r[i] == Text.Trim(lines[i])
  {
    seq(|lines|, i requires 0 <= i < |lines| => Text.Trim(lines[i]))
  }

  /** array_filter on the trimmed lines: those PHP does not call empty ("" and "0" go), each
      with its original index, which array_filter keeps. */
  function NonEmpty(ts: seq<string>): (r: seq<(int, string)>)
    ensures |r| <= |ts|
    ensures forall k :: 0 <= k < |r| ==> (0 <= r[k].0 < |ts| && r[k].1 == ts[r[k].0] && !Text.IsEmptyString(r[k].1))
    ensures forall k, l :: 0 <= k < l < |r| ==> r[k].0 < r[l].0
    decreases |ts|
  {
    if ts == [] then []
    else
      var n := |ts| - 1;
      var init := NonEmpty(ts[..n]);
      assert forall k :: 0 <= k < |init| ==> ts[..n][init[k].0] == ts[init[k].0];
      init + (if Text.IsEmptyString(ts[n]) then [] else [(n, ts[n])])
  }

  /** No line that PHP does not call empty is dropped. */
  lemma {:induction false} NonEmptyComplete(ts: seq<string>, i: int)
    requires 0 <= i < |ts| && !Text.IsEmptyString(ts[i])
    ensures exists k :: 0 <= k < |NonEmpty(ts)| && NonEmpty(ts)[k] == (i, ts[i])
    decreases |ts|
  {
    var n := |ts| - 1;
    var init := NonEmpty(ts[..n]);
    if i < n {
      NonEmptyComplete(ts[..n], i);
      var k :| 0 <= k < |init| && init[k] == (i, ts[..n][i]);
      assert NonEmpty(ts)[k] == init[k];
    } else {
      assert NonEmpty(ts)[|init|] == (n, ts[n]);
    }
  }

  /** The URL list of the image_urls field: one URL per line, trimmed, blank lines dropped. */
  function UrlList(post: map<string, string>): seq<(int, string)> {
    NonEmpty(TrimAll(Text.Explode(PostField(post, "image_urls"), '\n')))
  }

  /** The image rows inserted for event `id`: display_order is the line index plus one. */
  function ImageRows(id: int, urls: seq<(int, string)>): (r: seq<EventImage>)
    ensures |r| == |urls|
    ensures forall k :: 0 <= k < |urls| ==> r[k] == EventImage(id, urls[k].1, urls[k].0 + 1)
  {
    seq(|urls|, k requires 0 <= k < |urls| => EventImage(id, urls[k].1, urls[k].0 + 1))
  }

  // ---------------------------------------------------------------------------------------------
  // Validation
  // ---------------------------------------------------------------------------------------------

  /** The date is set, parses, and lies strictly after now. */
  predicate DateOk(php: Builtins, now: int, date: string) {
    !Text.IsEmptyString(date) && php.strtotime(date).Some? && php.strtotime(date).value > now
  }

  /** empty($price) || !is_numeric($price) || $price < 0 fails; so does "0", which PHP calls empty. */
  predicate PriceOk(php: Builtins, price: string) {
    !Text.IsEmptyString(price) && php.number(price).Some? && php.number(price).value >= 0.0
  }

  predicate TicketsOk(php: Builtins, tickets: string) {
    !Text.IsEmptyString(tickets) && php.number(tickets).Some? && php.number(tickets).value >= 1.0
  }

  predicate FieldsOk(php: Builtins, now: int, csrfValid: bool, f: Fields) {
    && csrfValid && !Text.IsEmptyString(f.title) && !Text.IsEmptyString(f.description)
    && DateOk(php, now, f.eventDate) && !Text.IsEmptyString(f.venue)
    && PriceOk(php, f.price) && TicketsOk(php, f.totalTickets)
  }

  /** The error of one check: none when it passes. */
  function Check(ok: bool, e: Error): seq<Error> {
    if ok then [] else [e]
  }

  /** The date's error: missing, or else not in the future. */
  function DateErrors(php: Builtins, now: int, date: string): seq<Error> {
    if Text.IsEmptyString(date) then [Date] else Check(DateOk(php, now, date), Past)
  }

  /** The field errors, each check adding its own. */
  function FieldErrors(php: Builtins, now: int, csrfValid: bool, f: Fields): (r: seq<Error>)
    ensures r == [] <==> FieldsOk(php, now, csrfValid, f)
  {
    Check(csrfValid, Token) + Check(!Text.IsEmptyString(f.title), Title)
    + Check(!Text.IsEmptyString(f.description), Description) + DateErrors(php, now, f.eventDate)
    + Check(!Text.IsEmptyString(f.venue), Venue) + Check(PriceOk(php, f.price), Price)
    + Check(TicketsOk(php, f.totalTickets), Tickets)
  }

  /** Each failed check contributes its own error; a date that is set but not in the future
      (or does not parse) gives the second date error, not the first. A price of "0" fails. */
  lemma FieldErrorsSpec(php: Builtins, now: int, csrfValid: bool, f: Fields)
    ensures var r := FieldErrors(php, now, csrfValid, f);
      && (Token in r <==> !csrfValid)
      && (Title in r <==> Text.IsEmptyString(f.title))
      && (Description in r <==> Text.IsEmptyString(f.description))
      && (Date in r <==> Text.IsEmptyString(f.eventDate))
      && (Past in r <==> !Text.IsEmptyString(f.eventDate) && !DateOk(php, now, f.eventDate))
      && (Venue in r <==> Text.IsEmptyString(f.venue))
      && (Price in r <==> !PriceOk(php, f.price))
      && (Tickets in r <==> !TicketsOk(php, f.totalTickets))
    ensures f.price == "0" ==> Price in FieldErrors(php, now, csrfValid, f)
  {
  }

  /** One error per invalid URL, in list order. */
  function UrlErrors(php: Builtins, urls: seq<(int, string)>): (r: seq<Error>)
    ensures |r| <= |urls|
    ensures r == [] <==> forall k :: 0 <= k < |urls| ==> php.validUrl(urls[k].1)
    decreases |urls|
  {
    if urls == [] then []
    else
      var n := |urls| - 1;
      var init := UrlErrors(php, urls[..n]);
      assert forall k :: 0 <= k < n ==> urls[..n][k] == urls[k];
      init + (if php.validUrl(urls[n].1) then [] else [Url(urls[n].1)])
  }

  /** Each invalid URL adds exactly one error: the errors of two lists are the errors of each. */
  lemma {:induction false} UrlErrorsAppend(php: Builtins, a: seq<(int, string)>, b: seq<(int, string)>)
    ensures UrlErrors(php, a + b) == UrlErrors(php, a) + UrlErrors(php, b)
    decreases |b|
  {
    if b == [] {
      assert a + b == a;
    } else {
      var n := |b| - 1;
      assert (a + b)[..|a + b| - 1] == a + b[..n];
      UrlErrorsAppend(php, a, b[..n]);
    }
  }

  /** A single URL gives one error when invalid and none when valid. */
  lemma UrlErrorsOne(php: Builtins, u: (int, string))
    ensures UrlErrors(php, [u]) == (if php.validUrl(u.1) then [] else [Url(u.1)])
  {
    assert [u][..0] == [];
  }

  /** The errors of a request: the field checks, then the URL checks. */
  function Errors(php: Builtins, now: int, csrfValid: bool, f: Fields, urls: seq<(int, string)>): seq<Error> {
    FieldErrors(php, now, csrfValid, f) + UrlErrors(php, urls)
  }

  /** The field checks, appending to $errors as they go. */
  method CheckFields(php: Builtins, now: int, csrfValid: bool, f: Fields) returns (errors: seq<Error>)
    ensures errors == FieldErrors(php, now, csrfValid, f)
  {
    errors := [];
    if !csrfValid {
      errors := errors + [Token];
    }
    assert errors == Check(csrfValid, Token);
    if Text.IsEmptyString(f.title) {
      errors := errors + [Title];
    }
    ghost var e1 := errors;
    assert e1 == Check(csrfValid, Token) + Check(!Text.IsEmptyString(f.title), Title);
    if Text.IsEmptyString(f.description) {
      errors := errors + [Description];
    }
    ghost var e2 := errors;
    assert e2 == e1 + Check(!Text.IsEmptyString(f.description), Description);
    if Text.IsEmptyString(f.eventDate) {
      errors := errors + [Date];
    } else if !DateOk(php, now, f.eventDate) {
      errors := errors + [Past];
    }
    ghost var e3 := errors;
    assert e3 == e2 + DateErrors(php, now, f.eventDate);
    if Text.IsEmptyString(f.venue) {
      errors := errors + [Venue];
    }
    ghost var e4 := errors;
    assert e4 == e3 + Check(!Text.IsEmptyString(f.venue), Venue);
    if !PriceOk(php, f.price) {
      errors := errors + [Price];
    }
    ghost var e5 := errors;
    assert e5 == e4 + Check(PriceOk(php, f.price), Price);
    if !TicketsOk(php, f.totalTickets) {
      errors := errors + [Tickets];
    }
    assert errors == e5 + Check(TicketsOk(php, f.totalTickets), Tickets);
  }

  /** The URL checks: the foreach over the list, one error per invalid URL. */
  method CheckUrls(php: Builtins, urls: seq<(int, string)>, before: seq<Error>) returns (errors: seq<Error>)
    ensures errors == before + UrlErrors(php, urls)
  {
    errors := before;
    var i := 0;
    while i < |urls|
      invariant 0 <= i <= |urls|
      invariant errors == before + UrlErrors(php, urls[..i])
    {
      assert urls[..i + 1][..i] == urls[..i];
      if !php.validUrl(urls[i].1) {
        errors := errors + [Url(urls[i].1)];
      }
      i := i + 1;
    }
    assert urls[..i] == urls;
  }

  /** All the checks, fields first; no error means every field check passed. */
  method Validate(php: Builtins, now: int, csrfValid: bool, f: Fields, urls: seq<(int, string)>)
    returns (errors: seq<Error>)
    ensures errors == Errors(php, now, csrfValid, f, urls)
    ensures errors == [] ==> FieldsOk(php, now, csrfValid, f)
  {
    errors := CheckFields(php, now, csrfValid, f);
    errors := CheckUrls(php, urls, errors);
  }

  // ---------------------------------------------------------------------------------------------
  // The insert
  // ---------------------------------------------------------------------------------------------

  /** The events row for checked fields: every ticket available, owned by the organizer. The
      text price and count become the stored price in cents and ticket count. */
  function NewEvent(php: Builtins, user: int, f: Fields): Event
    requires php.strtotime(f.eventDate).Some?
    requires PriceOk(php, f.price) && TicketsOk(php, f.totalTickets)
  {
    var total := php.number(f.totalTickets).value.Floor;
    Event((php.number(f.price).value * 100.0).Floor, total, total, php.strtotime(f.eventDate).value, user,
          f.title, f.description, f.venue)
  }

  /** The image insert loop. */
  method InsertImages(db: Store, id: int, urls: seq<(int, string)>)
    modifies db
    ensures db.images == old(db.images) + ImageRows(id, urls)
    ensures db.bookings == old(db.bookings) && db.events == old(db.events) && db.now == old(db.now)
    ensures db.nextBooking == old(db.nextBooking) && db.nextEvent == old(db.nextEvent)
  {
    var i := 0;
    while i < |urls|
      invariant 0 <= i <= |urls|
      invariant db.images == old(db.images) + ImageRows(id, urls[..i])
      invariant db.bookings == old(db.bookings) && db.events == old(db.events) && db.now == old(db.now)
      invariant db.nextBooking == old(db.nextBooking) && db.nextEvent == old(db.nextEvent)
    {
      assert ImageRows(id, urls[..i + 1]) == ImageRows(id, urls[..i]) + [EventImage(id, urls[i].1, urls[i].0 + 1)];
      db.images := db.images + [EventImage(id, urls[i].1, urls[i].0 + 1)];
      i := i + 1;
    }
    assert urls[..i] == urls;
  }

  /** The page after the request. */
  datatype Response = Redirect(location: string) | Blank | Created(id: int, message: string) | Rejected(errors: seq<Error>)

  function SuccessMessage(images: int): string {
    "Event created successfully with " + Text.IntToString(images) + " images!"
  }

  /** What a submitted form leads to, given its cleaned fields, URL list and errors: the
      errors if any; else the database error, with nothing inserted; else the new event (every
      ticket available) with its image rows. `events`, `images` and `next` are the tables and
      the id sequence after the request, the `0` ones before. */
  ghost predicate Submitted(events0: map<int, Event>, images0: seq<EventImage>, next0: int,
                            events: map<int, Event>, images: seq<EventImage>, next: int,
                            php: Builtins, now: int, user: int, f: Fields, urls: seq<(int, string)>,
                            errors: seq<Error>, dbError: Option<string>, r: Response)
  {
    && (errors != [] ==> r == Rejected(errors))
    && (errors == [] && dbError.Some? ==> r == Rejected([Database(dbError.value)]))
    && (!r.Created? ==> events == events0 && images == images0 && next == next0)
    && (errors == [] && dbError.None? ==>
          && PriceOk(php, f.price) && TicketsOk(php, f.totalTickets) && DateOk(php, now, f.eventDate)
          && r == Created(next0, SuccessMessage(|urls|))
          && next0 !in events0
          && events == events0[next0 := NewEvent(php, user, f)]
          && events[next0].available == events[next0].total
          && images == images0 + ImageRows(next0, urls)
          && next == next0 + 1)
  }

  /** The transaction: with no errors, insert the event and its images, or roll back. */
  method Submit(db: Store, php: Builtins, user: int, csrfValid: bool, f: Fields, urls: seq<(int, string)>,
                errors: seq<Error>, dbError: Option<string>) returns (r: Response)
    requires db.Valid()
    requires errors == [] ==> FieldsOk(php, db.now, csrfValid, f)
    modifies db
    ensures db.Valid()
    ensures db.bookings == old(db.bookings) && db.now == old(db.now) && db.nextBooking == old(db.nextBooking)
    ensures Submitted(old(db.events), old(db.images), old(db.nextEvent), db.events, db.images, db.nextEvent,
                      php, old(db.now), user, f, urls, errors, dbError, r)
  {
    if errors != [] {
      return Rejected(errors);
    }
    if dbError.Some? {
      // the transaction is rolled back before anything is visible
      return Rejected([Database(dbError.value)]);
    }
    var id := db.nextEvent;
    db.events := db.events[id := NewEvent(php, user, f)];
    db.nextEvent := id + 1;
    InsertImages(db, id, urls);
    r := Created(id, SuccessMessage(|urls|));
  }

  /** The submitted form, with its cleaned fields, URL list and token check: run the checks,
      then the transaction. */
  method HandlePost(db: Store, user: int, php: Builtins, csrfValid: bool, f: Fields, urls: seq<(int, string)>,
                    dbError: Option<string>) returns (r: Response)
    requires db.Valid()
    modifies db
    ensures db.Valid()
    ensures db.bookings == old(db.bookings) && db.now == old(db.now) && db.nextBooking == old(db.nextBooking)
    ensures Submitted(old(db.events), old(db.images), old(db.nextEvent), db.events, db.images, db.nextEvent,
                      php, old(db.now), user, f, urls, Errors(php, old(db.now), csrfValid, f, urls), dbError, r)
  {
    var errors := Validate(php, db.now, csrfValid, f, urls);
    r := Submit(db, php, user, csrfValid, f, urls, errors, dbError);
  }

  /** `dbError` is the message of a PDOException raised inside the transaction, if one is. */
  method CreateEvent(db: Store, vars: map<string, Value>, user: int, isPost: bool, post: map<string, string>,
                     php: Builtins, dbError: Option<string>) returns (r: Response)
    requires db.Valid()
    modifies db
    ensures db.Valid()
    ensures db.bookings == old(db.bookings) && db.now == old(db.now) && db.nextBooking == old(db.nextBooking)
    ensures !Security.IsOrganizer(vars) || !isPost ==> db.events == old(db.events) && db.images == old(db.images) && db.nextEvent == old(db.nextEvent)
    ensures !Security.IsOrganizer(vars) ==> r == Redirect(LoginPage)
    ensures Security.IsOrganizer(vars) && !isPost ==> r == Blank
    ensures Security.IsOrganizer(vars) && isPost ==>
      Submitted(old(db.events), old(db.images), old(db.nextEvent), db.events, db.images, db.nextEvent,
                php, old(db.now), user, CleanFields(php, post), UrlList(post),
                Errors(php, old(db.now), Functions.VerifyCsrfToken(vars, PostField(post, "csrf_token")),
                       CleanFields(php, post), UrlList(post)),
                dbError, r)
  {
    if !Security.IsOrganizer(vars) {
      return Redirect(LoginPage);
    }
    if !isPost {
      return Blank;
    }
    r := HandlePost(db, user, php, Functions.VerifyCsrfToken(vars, PostField(post, "csrf_token")),
                    CleanFields(php, post), UrlList(post), dbError);
  }
}
