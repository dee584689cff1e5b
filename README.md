# TicketingWebsite booking core in Dafny

TicketingWebsite is a PHP event-ticketing site: organizers create events, users put tickets in a
cart, confirm them as bookings and pay for them. This project models the site's core, the
booking state machine, as a Dafny program, together with the validators and parsers around it.

## The booking state machine

Every `user_bookings` row moves `cart -> booked -> paid`, or it is deleted. Each HTTP handler is
one guarded transition over the shared tables. The tables are held in one object, `Db.Store`,
whose fields the handlers update in place:

- `bookings`: the user_bookings rows;
- `events`: the events rows, each with its `available_tickets` counter;
- `images`: the event_images rows;
- `now`: the clock;
- `nextBooking` and `nextEvent`: the id sequences.

`Store.Valid()` is the invariant that every handler is proved to preserve:

- ids lie below their sequences;
- every booking's event exists;
- a user holds at most one cart-or-booked row per event.

A database rollback is modelled as "state unchanged". Money is in integer cents and times are
Unix seconds.

The handlers do not agree on the ticket counters. The model keeps each handler's own contract
and shows the disagreement rather than assuming a conservation law:

- `confirm_booking.php` confirms a row without taking its tickets from the counter.
- `confirm_all_bookings.php` and `confirm_booking_debug.php` do take the tickets.
- `cancel_booking.php` gives the tickets of any booked row back.
- The three `payment/process_payment*.php` handlers decrement with no guard.

`Inventory` holds two short request sequences, each proved on a concrete store:

- `PaymentOversells`: two users pay for the same two tickets, and the counter ends at -2.
- `ConfirmThenCancelInflates`: a user confirms two tickets and then cancels them, and the event ends
  with 12 available tickets out of 10.

## Read side and helpers

- The cart and bookings pages list the user's rows in ORDER BY order (an insertion sort proved
  sorted and a permutation). They split the rows by status or by date, and they total the lines
  with the `total_amount > 0` fallback.
- The validators are modelled as well:
  - event creation, where errors accumulate;
  - registration, where the first failing check wins;
  - login, which redirects by role;
  - the `.env` parser and configuration defaults;
  - the CSRF token, flash message and role helpers;
  - the base-URL suffix stripper;
  - the client-side e-mail regular expression.
- PHP builtins the model does not interpret are fields of the `Php.Builtins` record:
  - `strtotime`, `is_numeric` with its value, `filter_var` for URLs and e-mail addresses;
  - `htmlspecialchars`, `strip_tags`, `password_hash` and `password_verify`.
- `trim`, `explode`, `implode`, `strtoupper` and `str_replace` of one character are modelled
  exactly, in `Text`; so is `intval`, except for the exponent form.
- Time, random values and unique ids are parameters:
  - `time()`/`CURRENT_TIMESTAMP` is `Store.now`;
  - `uniqid`, `date`, `microtime`, `rand` and `random_bytes` are explicit arguments.

## Model

| member | source | states |
|---|---|---|
| Db.Store.Valid | book_ticket.php:63-68 | the invariant every handler keeps: booking and event ids lie below their id sequences, every booking's event exists, and a user has at most one cart-or-booked row per event (the row book_ticket.php looks up before inserting) |
| Db.CartIds | confirm_all_bookings.php:29-37 | the set holds exactly the ids of the user's cart rows |
| Db.InsertKeepsOneActive | book_ticket.php:59-99 | adding a cart row for a (user, event) pair that has no cart or booked row keeps at most one such row per pair |
| Db.UpdateKeepsOneActive | confirm_booking.php:48-57 | rewriting a row without changing its user or event, and without making an inactive row active, keeps the rule |
| Db.UpdateAllKeepsOneActive | payment/process_payment_fixed.php:84-89 | the same for a bulk update of many rows |
| Db.FindActive | book_ticket.php:63-68 | returns a cart-or-booked row of the user for the event, or None only when there is none |
| Db.FetchCart | confirm_all_bookings.php:29-37 | lists every cart row of the user exactly once: the listed ids are the cart rows, none repeats, and the length is the number of cart rows |
| Db.Decrement | confirm_all_bookings.php:74-79 | the decrement loop's result keeps the set of events |
| Db.DecrementStep | confirm_all_bookings.php:64-82 | one more row takes its tickets from its event, on top of the earlier rows |
| Db.DecrementOthers | confirm_all_bookings.php:74-79 | an event that no listed row is for keeps its row in the events table |
| Db.DecrementSpec | confirm_all_bookings.php:74-79 | when the rows are for different events, each row's event loses exactly that row's tickets and every other event is unchanged |
| Db.DecrementOwn | confirm_all_bookings.php:74-79 | when the rows are for different events, a given row's event loses exactly that row's tickets |
| Db.CartEventsDistinct | book_ticket.php:63-68 | under the one-row-per-event rule, two cart rows of one user are for different events |
| Db.CartDecrement | confirm_all_bookings.php:74-79 | decrementing along the user's cart: each cart row's event loses its tickets, and events without a cart row are unchanged |
| Collections.CardElems | payment/process_payment_fixed.php:72 | a list has at least as many positions as distinct elements, and exactly as many iff no element repeats |
| Collections.DistinctEnumeration | confirm_all_bookings.php:81-86 | a repeat-free enumeration of a set has the set's size |
| Collections.FoundAll | payment/process_payment_fixed.php:72-74 | the number of found ids equals the list length iff the list has no repeat and every listed id was found |
| Text.TrimLeft | inc/functions.php:118 | drops exactly the longest prefix made of the given characters |
| Text.TrimRight | inc/functions.php:118 | drops exactly the longest suffix made of the given characters |
| Text.TrimChars | inc/db_secure.php:13 | trim($s, $chars): ltrim and then rtrim with the same character list |
| Text.Trim | inc/functions.php:118 | trim($s) with PHP's default list of space, tab, newline, carriage return, NUL and vertical tab |
| Text.TrimCharsSpec | inc/db_secure.php:12-13 | trim's result is a contiguous piece of the input whose first and last characters are not trimmed ones, and everything cut off is |
| Text.TrimCharsKeeps | inc/db_secure.php:13 | a string whose ends are not trimmed characters is left as it is |
| Text.Explode | payment/process_payment_fixed.php:23 | explode gives at least one piece and no piece contains the separator |
| Text.JoinExplode | payment/process_payment_fixed.php:23 | joining the pieces with the separator gives the input back |
| Text.ExplodeJoin | payment/process_payment_fixed.php:23 | exploding a join of separator-free pieces gives the pieces back |
| Text.SplitFirst | inc/db_secure.php:11 | explode with limit 2 splits iff the separator occurs, at its first occurrence, and the halves rebuild the input |
| Text.SplitFirstAt | inc/db_secure.php:11 | splitting `left + sep + right` with no separator in `left` gives back `left` and `right`, even when `right` contains separators |
| Text.IntToString | book_ticket.php:48 | PHP's integer printing is non-empty and starts with a digit or a minus sign |
| Text.IntToStringDigits | payment/process_payment_fixed.php:23 | a printed integer is digits after an optional leading minus, so it holds no comma |
| Text.NatToStringInjective | payment/process_payment_simple.php:34 | different natural numbers have different decimal digits |
| Text.IntToStringInjective | payment/process_payment_simple.php:34 | different integers print differently |
| Text.IntValIntToString | payment/process_payment_fixed.php:41 | intval reads back every printed 64-bit integer |
| Text.IntVal | payment/process_payment_fixed.php:41 | intval on a string: leading white space skipped, an optional sign, then the leading digits with the rest ignored, saturating at the 64-bit bounds |
| Text.ToUpper | confirm_booking.php:44 | strtoupper keeps the length, maps each character, and leaves no a-z letter |
| Text.RemoveChar | payment/process_payment.php:35 | str_replace of one character leaves none of it, never lengthens, and changes nothing when it is absent |
| Text.RemoveCharAppend | payment/process_payment.php:35 | deleting a character distributes over concatenation |
| BookTicket.RequestErrors | book_ticket.php:26-37 | the request errors are empty iff the token is valid, the event id non-zero and the count in 1..10; each error is present iff its own check fails |
| BookTicket.BookTicket | book_ticket.php:17-115 | the events table is only read; a refused request changes no row; request errors accumulate; a missing, sold-out or started event gives its own single error; a booked row refuses; a cart row has its count replaced, not incremented; otherwise exactly one new cart row is added; Valid() is kept |
| ConfirmBooking.Reference | confirm_booking.php:44 | the reference is "BK" followed by the upper-cased unique id |
| ConfirmBooking.ConfirmBooking | confirm_booking.php:11-68 | id 0, a row that is not the user's cart row, or too few tickets each give their error and change nothing; on success only that row changes: it becomes booked with the reference and total = tickets x price; no counter changes |
| ConfirmBookingDebug.ConfirmBookingDebug | confirm_booking_debug.php:17-121 | every failed check (id 0, not the user's row, not in the cart, too few tickets, started) leaves both tables unchanged; it confirms iff the row is in the cart with enough tickets and a future date, and then the row is booked and its event loses exactly its tickets; no counter that was non-negative becomes negative |
| ConfirmAllBookings.ConfirmRows | confirm_all_bookings.php:66-71 | confirming the listed rows keeps the set of rows |
| ConfirmAllBookings.ConfirmRowsStep | confirm_all_bookings.php:64-72 | one more listed row becomes booked on top of the earlier ones |
| ConfirmAllBookings.CheckItems | confirm_all_bookings.php:46-58 | no error iff every cart item has enough tickets and a future event; each error names a failing item |
| ConfirmAllBookings.ConfirmOne | confirm_all_bookings.php:64-82 | one pass of the update loop: the row becomes booked and its event loses the row's tickets, nothing else changes |
| ConfirmAllBookings.ConfirmItems | confirm_all_bookings.php:62-82 | the update loop: the bookings become ConfirmRows of the list, the events Decrement of the list, and the count is the list length |
| ConfirmAllBookings.CartOutcome | confirm_all_bookings.php:46-82 | when every cart row passes the checks, exactly the user's cart rows become booked, and no non-negative counter becomes negative |
| ConfirmAllBookings.ConfirmCart | confirm_all_bookings.php:62-82 | once every cart row passed the checks: exactly the user's cart rows become booked, each event loses the tickets of the cart row for it, other events are unchanged, no non-negative counter becomes negative, and the count is the number of cart rows |
| ConfirmAllBookings.ConfirmAllBookings | confirm_all_bookings.php:18-88 | all or nothing: a bad token, an empty cart or any failing item changes nothing; it confirms iff every cart row passes; then exactly the user's cart rows are booked, each event loses the tickets of the cart row for it, other events are unchanged, and the count is the number of cart rows |
| CancelBooking.RequestErrors | cancel_booking.php:21-31 | the errors are empty iff the token is valid and the id non-zero; each error is present iff its check fails |
| CancelBooking.RemoveKeepsOneActive | cancel_booking.php:61-62 | deleting a row keeps the one-row-per-event rule |
| CancelBooking.CancelBooking | cancel_booking.php:18-83 | request errors change nothing and go to the cart page; a row that is not the user's cart or booked row gives "Booking not found." and changes nothing; else the row is deleted, a booked row's tickets go back to its event, and a cart row leaves the counters alone |
| CancelBooking.CancelTwice | cancel_booking.php:36-62 | cancelling the same row twice: the first succeeds, the second finds no row, and the tables end as one cancellation leaves them |
| ClearCart.WithoutCart | user/clear_cart.php:31 | the remaining rows are exactly those that are not the user's cart rows, unchanged, and the user has no cart row left |
| ClearCart.SubmapKeepsOneActive | user/clear_cart.php:31-32 | deleting rows keeps the one-row-per-event rule |
| ClearCart.ClearCart | user/clear_cart.php:12-40 | a bad token or an empty cart gives its error and changes nothing; else exactly the user's cart rows are deleted and the count is their number; no counter changes |
| ProcessPaymentFixed.NonZero | payment/process_payment_fixed.php:41 | array_filter on integers: no zero is left, the other values are kept, and a zero-free list is unchanged |
| ProcessPaymentFixed.IntVals | payment/process_payment_fixed.php:41 | array_map('intval') maps each piece to its intval |
| ProcessPaymentFixed.IntValsMembers | payment/process_payment_fixed.php:41 | a value is among the results iff some piece reads as it |
| ProcessPaymentFixed.ParseBookingIds | payment/process_payment_fixed.php:23-41 | the ids of the booking_ids field: split at commas, each piece read with intval, zeros dropped, order kept |
| ProcessPaymentFixed.ParseIdsField | payment/process_payment_fixed.php:23-41 | parsing a comma-joined list of non-zero 64-bit ids gives the list back |
| ProcessPaymentFixed.ParseOneId | payment/checkout.php:99 | the single id the checkout form sends is parsed back as that id |
| ProcessPaymentFixed.RequestErrors | payment/process_payment_fixed.php:28-44 | the errors are empty iff the token is valid, the method is one of the four, and the id list is not empty; each error is present iff its check fails |
| ProcessPaymentFixed.FetchListed | payment/process_payment_fixed.php:62-70 | the fetched rows are exactly the listed ids that are the user's booked rows, each once |
| ProcessPaymentFixed.CountTest | payment/process_payment_fixed.php:72-74 | the count test passes iff no id is listed twice and every listed id is a booked row of the user |
| ProcessPaymentFixed.References | payment/process_payment_fixed.php:77-80 | one "BK" reference per fetched row, from that call's uniqid |
| ProcessPaymentFixed.MarkListedPaid | payment/process_payment_fixed.php:84-89 | the listed booked rows become paid and nothing else changes |
| ProcessPaymentFixed.PayListed | payment/process_payment_fixed.php:28-119 | methods test/js_test succeed with nothing changed even when other checks failed; request errors change nothing; a list with a repeat or a row that is not the user's booked row fails and changes nothing; else exactly the listed rows become paid with one reference each; no counter ever changes |
| ProcessPaymentFixed.ProcessPaymentFixed | payment/process_payment_fixed.php:22-119 | the same outcome for the id list parsed from the raw field |
| ProcessPayment.CheckFields | payment/process_payment.php:23-29 | true iff none of the five required fields is empty() |
| ProcessPayment.PaymentReference | payment/process_payment.php:34-35 | the reference starts with "PAY_", has no '.', and the rest is the parts with their dots removed |
| ProcessPayment.PayRows | payment/process_payment.php:47-53 | exactly the user's cart rows become paid with the one reference; other rows are unchanged; no cart row of the user remains |
| ProcessPayment.MarkPaid | payment/process_payment.php:47-53 | the two UPDATEs leave the bookings equal to PayRows and change nothing else |
| ProcessPayment.DecrementEvents | payment/process_payment.php:57-60 | the loop leaves the events equal to Decrement of the fetched rows, with no guard |
| ProcessPayment.PayCart | payment/process_payment.php:47-60 | exactly the user's cart rows become paid under the reference, each event loses the tickets of the cart row for it however few it had, and other events are unchanged |
| ProcessPayment.ProcessPayment | payment/process_payment.php:15-63 | a bad token, an empty field or an empty cart gives its error and changes nothing; else all the user's cart rows become paid under one reference, and each event loses the tickets of the cart row for it however few it had |
| ProcessPaymentSimple.SimpleReference | payment/process_payment_simple.php:34 | the reference is "PAY_", then the timestamp, then "_" and the user id |
| ProcessPaymentSimple.SimpleReferenceInjective | payment/process_payment_simple.php:34 | two users paying in the same second get different references |
| ProcessPaymentSimple.ProcessPaymentSimple | payment/process_payment_simple.php:15-62 | the same transition as process_payment.php, with the simple reference |
| Checkout.AmountDue | payment/checkout.php:31 | the stored total when positive, else tickets x price; never negative for non-negative inputs |
| Checkout.Checkout | payment/checkout.php:11-45 | id 0 gives "No booking specified"; any other id that is not a booked row of the user with an existing event gives "Booking not found"; it is ready iff the id is such a row; then the page carries that row, its amount due, and a form naming exactly that id and amount |
| Checkout.CheckoutFormPays | payment/checkout.php:98-100 | the form of a ready checkout parses to exactly its booking, which passes the tests of payment/process_payment_fixed.php (method, token and booking list) |
| Checkout.Posted | payment/checkout.php:97-162 | the fields the demo form and the card form post: payment_method, booking_ids, total_amount and csrf_token, plus stripe_token from the card form |
| Checkout.CheckoutFormMissesFields | payment/process_payment.php:23-29 | neither form carries full_name, email, phone or terms, so both fail the required-fields test of payment/process_payment.php, the handler they post to |
| Inventory.TwoCarts | book_ticket.php:77-99 | two users each put both tickets of a two-ticket event in their carts, and book_ticket.php accepts both |
| Inventory.FormFilled | payment/process_payment.php:23-29 | the demo payment form passes the required-fields check |
| Inventory.PayFor | payment/process_payment.php:37-60 | a user with one cart row pays, and the event loses that row's tickets |
| Inventory.PaymentOversells | payment/process_payment.php:55-60 | after both users pay, the two-ticket event has -2 tickets available |
| Inventory.ConfirmThenCancelInflates | cancel_booking.php:51-58 | confirming with confirm_booking.php and then cancelling leaves a ten-ticket event with 12 available |
| Listing.Insert | user/my_cart.php:20-22 | inserting adds the element and keeps the others (as a multiset) |
| Listing.InsertSorted | user/my_cart.php:20-22 | inserting into a sorted list keeps it sorted |
| Listing.Sort | user/my_cart.php:20-22 | the sort is a permutation of its input |
| Listing.SortSorted | user/my_bookings.php:33 | the sort's result is in key order |
| Listing.SortKeeps | user/my_cart.php:20-25 | sorting keeps the number of rows and exactly the same rows |
| Listing.WithStatus | user/my_cart.php:28-29 | array_filter on status keeps exactly the rows with a status in the set |
| Listing.WithStatusCounts | user/my_cart.php:28-29 | the filter drops only rows of other statuses: each row with a listed status is kept as often as it occurs, and nothing else is added |
| Listing.WithStatusSorted | user/my_cart.php:28-29 | rows in ORDER BY order stay in that order after the filter |
| Listing.Fetch | user/my_cart.php:15-25 | the query returns exactly the user's rows with a listed status, joined with their events, each once |
| MyCart.Total | user/my_cart.php:32-40 | the accumulation loop computes the sum of the line amounts |
| MyCart.SumNonNegative | user/my_cart.php:32-40 | a sum of non-negative lines is non-negative |
| MyCart.LinesNonNegative | user/my_cart.php:34-39 | with non-negative tickets and prices, both line amounts are non-negative |
| MyCart.BookedFirst | user/my_cart.php:20-22 | in the sorted list no booked row follows a cart row, and rows of one status are newest first |
| MyCart.StatusPartition | user/my_cart.php:28-29 | the cart and booked lists split the rows: every row is in exactly one, and the lengths add up |
| MyCart.MyCart | user/my_cart.php:14-46 | a database error gives empty lists and zero totals; else exactly the user's cart and booked rows are listed, paid rows excluded, in ORDER BY order, split by status, and both totals are the sums of their lines (the booked one with the total_amount fallback) |
| MyBookings.ByDate | user/my_bookings.php:26-40 | a row is upcoming iff its event date is after now, else past |
| MyBookings.DatePartition | user/my_bookings.php:39-40 | the upcoming and past lists split the bookings exactly (as multisets) |
| MyBookings.LatestFirst | user/my_bookings.php:33 | in the sorted list event dates never increase |
| MyBookings.MyBookings | user/my_bookings.php:12-47 | an error gives three empty lists; else exactly the user's paid rows, latest event first, split into upcoming and past |
| Functions.IsLoggedIn | inc/functions.php:9-11 | isLoggedIn: user_id is set in the session and not empty() |
| Functions.LoggedInValues | inc/functions.php:9-11 | logged in iff user_id is set to a value that PHP does not call empty, so user 0, "", "0" and false are logged out |
| Functions.VerifyCsrfToken | inc/functions.php:46-48 | verifyCSRFToken: the session holds a token and the submitted one equals it |
| Functions.AlertClass | inc/functions.php:82-87 | success, error and warning map to their classes; any other or missing type maps to alert-info |
| Functions.Session.GenerateCsrfToken | inc/functions.php:39-44 | afterwards a token is set and returned; an existing token is kept and returned, else the new random one is stored |
| Functions.Session.DisplayFlashMessage | inc/functions.php:74-94 | with a message set, it returns the message and the class of its type (default info) and removes both keys; without one, it changes nothing and shows nothing |
| Functions.GenerateTwice | inc/functions.php:39-48 | two calls return the same token, and a freshly stored token passes verifyCSRFToken |
| Functions.DisplayTwice | inc/functions.php:75-80 | the second display right after the first shows nothing |
| Functions.CleanString | inc/functions.php:118 | cleanInput on a string: trimmed, then tags stripped, then HTML-escaped |
| Functions.CleanInput | inc/functions.php:114-119 | a string is trimmed, stripped and escaped; an array stays an array with the same keys in the same order, each value cleaned by the same function |
| Functions.CleanInputShape | inc/functions.php:115-117 | cleanInput keeps the shape and keys of nested arrays at every depth |
| Functions.Dirname | inc/functions.php:128 | dirname never lengthens a path, except that it may return "." or "/" |
| Functions.LastSlash | inc/functions.php:128 | the index of the last '/', or -1 when there is none |
| Functions.LastSlashAt | inc/functions.php:128 | the last '/' of a path is found wherever it is |
| Functions.StripFromSpec | inc/functions.php:131 | a path not ending in a section segment is unchanged; one that does loses exactly that segment and its optional slash |
| Functions.StripSectionSpec | inc/functions.php:131 | one trailing /payment, /user, /auth, /admin or /organizer segment, with an optional slash, is removed, and nothing else |
| Functions.GetBaseUrl | inc/functions.php:124-134 | the scheme from the HTTPS server variable, then the host, then the script's directory with a trailing payment, user, auth, admin or organizer section removed |
| Functions.BaseUrlScheme | inc/functions.php:125 | the URL starts with https:// iff HTTPS is set, non-empty and not "off" |
| Functions.BaseUrlExamples | inc/functions.php:124-134 | a page one section down links to the site root, and a page at the root keeps "/" |
| Security.HasRole | inc/security.php:17-19 | hasRole: the session's role is set and is the string given (strict ===) |
| Security.IsAdmin | inc/security.php:24-26 | isAdmin: the role is "admin" |
| Security.IsOrganizer | inc/security.php:31-33 | isOrganizer: the role is "organizer" or "admin" |
| Security.RequireRole | inc/security.php:38-43 | redirects to the access-denied page iff hasRole is false |
| Security.RequireAdmin | inc/security.php:48-50 | lets the request go on iff isAdmin |
| Security.OneRole | inc/security.php:17-19 | a session has at most one role |
| Security.OrganizerRoles | inc/security.php:31-33 | isOrganizer holds iff the role is the string "organizer" or "admin"; every admin is an organizer |
| Security.StrictRole | inc/security.php:17-19 | a role stored as boolean true passes neither isAdmin nor isOrganizer, because the comparison is strict |
| Validation.RegexMatches | assets/js/validation.js:189 | the regular expression matches: non-empty runs of characters other than white space and '@', joined by one '@' and, after it, one '.' |
| Validation.IsValidEmail | assets/js/validation.js:188-190 | isValidEmail as a scanner: one '@' that is not first, no white space, and a '.' strictly inside the part after the '@' |
| Validation.Count | assets/js/validation.js:189 | an occurrence count is at most the length |
| Validation.IndexOf | assets/js/validation.js:189 | the first occurrence, or the length when there is none |
| Validation.CountZero | assets/js/validation.js:189 | the count is zero iff the character does not occur |
| Validation.CountAppend | assets/js/validation.js:189 | counts add over concatenation |
| Validation.CountOne | assets/js/validation.js:189 | with the character at index i, the count is one iff it occurs nowhere else |
| Validation.ValidEmailIsRegex | assets/js/validation.js:188-190 | the scanner accepts exactly the strings the regular expression matches |
| Validation.AcceptedShape | assets/js/validation.js:189 | an accepted address has exactly one '@', which is not first, no white space, and a '.' strictly inside the part after the '@' |
| Validation.TwoAts | assets/js/validation.js:189 | an address with two '@' is rejected |
| Validation.EmailExamples | assets/js/validation.js:188-190 | "a@b.c" is accepted; a missing dot, a dot right after '@', a second '@' and a space are each rejected |
| DbSecure.Lines | inc/db_secure.php:8 | the file's lines: its content split at each newline |
| DbSecure.EntryOf | inc/db_secure.php:10-13 | a line sets an entry iff it contains '=' and does not start with '#' |
| DbSecure.EntryOfSplit | inc/db_secure.php:11-13 | the key is the trimmed text before the first '=', and the value is the rest with quotes stripped, so it may hold '=' |
| DbSecure.Entries | inc/db_secure.php:8-10 | one entry per line, in file order |
| DbSecure.Apply | inc/db_secure.php:9-16 | the environment after the loop: each entry, in file order, assigns its key, and lines without an entry change nothing |
| DbSecure.ApplyStep | inc/db_secure.php:9-16 | a line without an entry changes nothing; one with an entry assigns its key on top of the earlier lines |
| DbSecure.LastFor | inc/db_secure.php:14 | None iff no line sets the key; else the value of the last line that sets it |
| DbSecure.ApplyLookup | inc/db_secure.php:9-17 | after the loop each key holds the value of its last line, and keys no line sets keep their old values |
| DbSecure.Environment.LoadEnvVariables | inc/db_secure.php:3-19 | returns true iff the file exists; a missing file changes nothing; else the environment is the old one with the file's lines applied in order |
| DbSecure.Environment.SetLines | inc/db_secure.php:9-17 | the foreach applies the lines' entries in order |
| DbSecure.Config | inc/db_secure.php:33-37 | each connection setting is read from the environment, with its default when absent |
| DbSecure.ConfigAfterLoad | inc/db_secure.php:33-37 | each setting is the file's last value for its key, else the earlier environment's, else its default |
| DbSecure.Defaults | inc/db_secure.php:33-37 | with nothing set, the settings are localhost, ticketing, root, "" and 5432 |
| DbSecure.EntryOfLine | inc/db_secure.php:11-13 | `key=value` sets the trimmed key to the value with its outer quotes stripped |
| DbSecure.ValueKeepsSpaces | inc/db_secure.php:13 | only quotes are stripped from a value: its white space is kept |
| DbSecure.CommentLine | inc/db_secure.php:10 | a line starting with '#' sets nothing, even when it holds '=' |
| Accounts.InsertKeepsUnique | auth/register.php:43-52 | adding a user whose address is not on file keeps addresses unique |
| Register.FieldError | auth/register.php:30-40 | exactly one error, that of the first failing check in order: empty field, short name, invalid address, short password, mismatch; none iff all pass |
| Register.Register | auth/register.php:11-67 | a logged-in visitor is redirected and nothing is written; a bad token gives only the security error; a field error, a known address or a failed insert each give their error and insert nothing; else one user with role 'user' and the hashed password is inserted and success is set; every other page leaves the table and its id sequence unchanged |
| Register.RegisterTwice | auth/register.php:43-47 | after a successful registration, the same form is refused as a duplicate, and the table ends with exactly the one account the first attempt added |
| Login.RoleDashboard | auth/Login.php:16-26 | admin and organizer go to their dashboards; any other role string goes to the home page |
| Login.LooselyIs | auth/Login.php:65-75 | a case label of the role switch matches loosely: the value is that string, or the boolean true |
| Login.SignedInSession | auth/Login.php:54-58 | the five keys a login writes make the session logged in with the user's role and keep all other keys |
| Login.Login | auth/Login.php:11-90 | a logged-in visitor goes to ?redirect or to the role's dashboard with the session unchanged; every error outcome of lines 11-90 writes no session key; a bad token, empty fields and an invalid address give their errors without a lookup; an unknown address and a wrong password give the same error; success writes the five keys and redirects |
| CreateEvent.TrimAll | organizer/create_event.php:21 | array_map('trim') trims every line |
| CreateEvent.NonEmpty | organizer/create_event.php:21 | array_filter keeps only the lines PHP does not call empty, in order, each with its original index |
| CreateEvent.NonEmptyComplete | organizer/create_event.php:21 | no such line is dropped |
| CreateEvent.UrlList | organizer/create_event.php:21 | the image URLs: the field split at newlines, each line trimmed, lines PHP calls empty dropped, each kept line with its original index |
| CreateEvent.ImageRows | organizer/create_event.php:94-95 | one image row per URL, with display_order equal to the original line index plus one |
| CreateEvent.FieldErrors | organizer/create_event.php:32-61 | no field error iff every field check passes |
| CreateEvent.FieldErrorsSpec | organizer/create_event.php:32-61 | each of the eight checks (token, title, description, date, past date, venue, price, tickets) contributes its own error iff it fails; a date that is set but not in the future gives the second date error; a price of "0" is rejected |
| CreateEvent.UrlErrors | organizer/create_event.php:64-70 | at most one error per URL, and none iff every URL is valid |
| CreateEvent.UrlErrorsAppend | organizer/create_event.php:64-70 | the errors of two URL lists are the errors of each, in order |
| CreateEvent.UrlErrorsOne | organizer/create_event.php:66-67 | one URL gives exactly one error when invalid and none when valid |
| CreateEvent.CheckFields | organizer/create_event.php:24-61 | the appends produce exactly the field errors, in order |
| CreateEvent.CheckUrls | organizer/create_event.php:63-70 | the loop appends exactly the URL errors |
| CreateEvent.Validate | organizer/create_event.php:24-70 | the errors are the field errors followed by the URL errors; none means every field check passed |
| CreateEvent.InsertImages | organizer/create_event.php:92-98 | the loop appends exactly the image rows and changes nothing else |
| CreateEvent.NewEvent | organizer/create_event.php:78-86 | the inserted events row: the cleaned fields, the price in cents and the ticket count, every ticket available, owned by the organizer |
| CreateEvent.Submitted | organizer/create_event.php:73-111 | the outcome of a submitted form: the errors if any, else the database error with nothing inserted, else the new event with its image rows and the success message |
| CreateEvent.Submit | organizer/create_event.php:73-111 | errors or a database error insert nothing; else one event with every ticket available, owned by the organizer, and its image rows are inserted |
| CreateEvent.HandlePost | organizer/create_event.php:24-111 | the checks then the transaction, for the cleaned fields and URL list |
| CreateEvent.CreateEvent | organizer/create_event.php:6-113 | a visitor who is not an organizer or admin is redirected to login; a GET changes nothing; a POST gives the errors of the cleaned form, or the database error, or the created event |

## Left out

- The login guard at the top of each booking handler, and the POST-only redirect, are not modelled. The handlers take the session's user id and the already-cast request fields (`(int)` casts) as parameters.
- validateCSRFToken, called by book_ticket.php and process_payment_fixed.php, is not defined in inc/functions.php or inc/security.php. Those handlers, and the others, take the token check's outcome as a boolean. Register, Login and CreateEvent compute it with `Functions.VerifyCsrfToken`.
- Database exceptions (PDOException) are not modelled, except for three paths: the query failure of my_cart.php and my_bookings.php (`dbOk`), the insert result of register.php (`insertOk`), and the exception inside create_event.php's transaction (`dbError`, which also stands for PostgreSQL rejecting a price or count, or a date it cannot cast).
- Login.Login: the form page that every `Form` outcome renders calls generateCSRFToken (auth/Login.php:114), which stores a new csrf_token when none is set (inc/functions.php:39-44). The model covers auth/Login.php:11-90 only, so "session unchanged" on a `Form` outcome does not include that template write. The same template call at auth/register.php:98 and organizer/create_event.php:143 is not modelled either.
- "Login failed. Please try again." (auth/Login.php:84-87) is a database-exception path and is left out.
- `FOR UPDATE` and concurrent requests are left out. Each handler is one atomic step.
- Branches that cannot be reached in a sequential model are not modelled: a zero `rowCount` after a guarded update, "No items were removed" in clear_cart.php, "Payment failed" in process_payment.php, and the rollbacks of confirm_booking_debug.php after its checks passed.
- The success and error messages that only go to the session or the URL are not modelled. This includes the total-tickets figure of clear_cart.php's message and the success texts of book_ticket.php and cancel_booking.php. The model's responses carry what decides them.
- ProcessPaymentFixed.ProcessPaymentFixed: the id list is treated as a plain list, so the PDO binding of the keys array_filter keeps is not modelled. The SELECT binds array_merge(...) (payment/process_payment_fixed.php:69), which renumbers the keys. The UPDATE binds the filtered array itself (line 89). When a piece that reads as 0 comes before a kept id, as in "abc,5", the keys do not start at 0. The UPDATE then raises HY093 and the source pays nothing, answering "Payment processing failed: ...". The model pays the booking.
- ProcessPayment.PayRows, ProcessPayment.PayCart, ProcessPayment.ProcessPayment and ProcessPaymentSimple.ProcessPaymentSimple write one payment reference onto every cart row and always succeed. The model assumes no uniqueness constraint on booking_reference. The source suggests there is one: the comment at payment/process_payment_simple.php:46, and the 'duplicate key' branch at payment/process_payment.php:71-72. With such a constraint, a cart of two or more rows would fail and nothing would be paid: process_payment.php answers "Payment processing conflict. Please try again." (its 'duplicate key' branch at lines 71-72), and process_payment_simple.php, whose catch at lines 68-71 has no such branch, answers "Database error". The model pays every row.
- The checkout page's forms (payment/checkout.php:97 and 155) post to payment/process_payment.php. That handler requires full_name, email, phone and terms, which the forms do not send, so it refuses them (Checkout.CheckoutFormMissesFields). Checkout.CheckoutFormPays relates the form to payment/process_payment_fixed.php instead. The model does not link a page to the handler its form posts to.
- floatval of `total_amount` in process_payment_fixed.php is left out. Floating-point formatting (number_format, toFixed) is left out too.
- CreateEvent.NewEvent stores the price as floor(number x 100) cents and the count as floor(number). The database's own rounding of the text it is given is not modelled.
- Text.IntVal reads an optional sign and leading digits. PHP 8's intval also reads the exponent form ("1e3" is 1000); that case is left out.
- `strlen` counts bytes, while the model's lengths count characters, so a multi-byte name or password is measured differently.
- hash_equals is modelled as equality. Its TypeError on a token that is not a string is left out.
- The regular expression of getBaseUrl ends in `$`, which also matches before a trailing newline. Script names with a trailing newline are left out.
- DbSecure.Lines splits the file on '\n'. file() also drops a '\r' before the '\n'; the model keeps it. Empty lines set nothing in either reading, so FILE_SKIP_EMPTY_LINES changes nothing.
- putenv and the session configuration of inc/db_secure.php (lines 21-53) are not modelled. The database connection is not modelled either.
- DbSecure.Environment.LoadEnvVariables: the ValueError that PHP 8's putenv throws is not modelled. inc/db_secure.php:15 calls putenv("$key=$value") after writing $_ENV at line 14. putenv throws when its argument starts with '='. That happens for a line whose key trims to "", such as "=secret" or "  = x". It also throws when the key or value holds a NUL byte. Nothing catches the error, so the source stops at that line: it applies no later line and never returns true. The model applies such a line as the entry ("", value), goes on, and returns true.
- DbSecure.Environment.SetLines: for the same reason, the loop goes on past a line with an empty trimmed key or a NUL byte, where the source stops with an uncaught ValueError.
- Only the events columns the handlers read or create_event.php writes are kept. Created/updated timestamps are kept only as `updatedAt` of bookings, which inserts set to the clock.
- HTML output and error_log calls are left out. The page templates, the dashboards and the debug scripts are left out as well.
- The builtins are parameters: uniqid, date, microtime, rand, random_bytes and time() (Store.now).
- getCurrentUser, requireLogin, e, formatPrice, formatDate, redirect, hashPassword, verifyPassword, isValidEmail (filter_var) and sanitizeOutput in inc/functions.php and inc/security.php are not modelled on their own. Of these, the password and e-mail checks appear only as `Php.Builtins` fields.
- ConfirmBookingDebug.ConfirmBookingDebug models the transition logic only. The diagnostic listing of all rows when a booking is not found is left out.
