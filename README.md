# Hotel booking backend — a verified model

This project models the request handlers of a hotel-booking REST backend
(Express over a MongoDB document store). It covers:

- the validation patterns for room numbers, beds, prices and amounts, names, e-mail addresses and passwords;
- the ordered check chains of every controller;
- the error-handling middleware, which maps an error name to a status and message;
- the bearer-token middleware and the administrator gate;
- the room and payment schemas, with their enumerations, required fields, defaults and unique room number;
- the store operations behind booking, cancelling, room create/update/delete, sign-up, profile updates and password changes.

The store is an in-memory state: rooms by id, and bookings, payments and
users in the order they were saved. The class `Store.HotelDb` holds that
state in fields the handlers update in place. Each handler that writes is
a module-level method that takes the store (`db: HotelDb`) and may modify
it (`modifies db`). That method is proved to leave exactly the state and send
exactly the reply that a pure transition function (`…Spec`) describes, and
to keep the store invariants. The invariants are: rooms keyed by id with
distinct numbers, fresh distinct ids, payments referring to stored
bookings, and distinct user e-mails. The lemmas state what the source
promises about those functions.

Every regular expression has a declarative predicate saying which strings
the pattern describes. The amount, name and e-mail patterns also have a
matcher that the checks use: a small automaton, or a split at the first `@`
and the last `.`. For each of them a lemma (`AmountAcceptsIff`,
`NameAcceptsIff`, `EmailAcceptsIff`) proves that the matcher and the
predicate agree on every string. The digit pattern (`IsDigits`) and the
password pattern (`IsPassword`) are used as declarative predicates directly.

Token signing and verification, the password-hash comparison and the
payment gateway are library or network calls, so they are parameters of
the model. A token is represented by the user id it is signed for. The
current time is a parameter.

Modules: one per source file (`ErrorHandler`, `UserAuth`, `AdminAuth`,
`RoomModel`, `PaymentModel`, `BookingControllers`, `RoomControllers`,
`AuthControllers`, `UserControllers`, `PaymentControllers`), plus
`Common` (shared types and status codes), `Validators` (the patterns the
controllers share) and `Store` (the document store the models are saved in).

## Model

| member | source | states |
|---|---|---|
| Validators.IsDigits | controllers/roomControllers.js:4-6 | the strings `^\d+$` matches: one or more ASCII digits and nothing else |
| Validators.IsAmount | controllers/roomControllers.js:5 | the strings `^\d+(\.\d{1,2})?$` matches: digits, optionally followed by a dot and one or two digits |
| Validators.IsName | controllers/authControllers.js:7 | the strings `^[a-zA-Z]+(?:\s+[a-zA-Z]+)*$` matches: ASCII letters and white space, starting and ending with a letter |
| Validators.IsEmail | controllers/authControllers.js:8 | the strings `^[a-z0-9._-]+@[a-z0-9.-]+\.[a-z]{2,4}$` matches, as a split into local part, `@`, domain, `.` and suffix |
| Validators.IsPassword | controllers/authControllers.js:9-10 | eight to sixteen characters, no line terminator, with an upper-case letter, a lower-case letter, a digit and one of `!@#$%^&*()` |
| Validators.RoomNumberSamples | controllers/roomControllers.js:4 | "101A" is not a room number, "101" is |
| Validators.AmountRunMeaning | controllers/roomControllers.js:5 | the amount automaton ends in each state exactly for the prefixes that state stands for (digits, digits and a dot, one or two decimals) |
| Validators.AmountAcceptsIff | controllers/bookingControllers.js:6 | the amount matcher accepts exactly the strings of `^\d+(\.\d{1,2})?$` |
| Validators.AmountShape | controllers/paymentControllers.js:6 | an amount is all digits, or digits split by a dot two or three characters from the end |
| Validators.AmountSamples | controllers/roomControllers.js:5 | "100.005", "invalid_amount", "", ".5" and "100." are refused; "100", "100.5" and "100.50" are accepted |
| Validators.NameRunMeaning | controllers/authControllers.js:7 | the name automaton is in a word exactly after a well-formed name, and in a gap exactly after a name followed by white space |
| Validators.NameAcceptsIff | controllers/authControllers.js:7 | the name matcher accepts exactly letter words separated by white space, with none at either end |
| Validators.NameSamples | controllers/authControllers.js:7 | "Johny Doe" is a name; leading or trailing space and digits are not |
| Validators.EmailAcceptsIff | controllers/authControllers.js:8 | splitting at the first `@` and the last `.` accepts exactly the strings of the e-mail pattern |
| Validators.EmailCompose | controllers/authControllers.js:8 | a local part, `@`, a domain, `.` and a 2–4 lower-case suffix form an address |
| Validators.EmailEnds | controllers/authControllers.js:8 | every address starts with a local-part character, has at least six characters, and ends in a dot followed by two to four lower-case letters |
| Validators.EmailSamples | controllers/authControllers.js:8 | upper-case letters, a five-letter suffix and a missing suffix are refused |
| Validators.PasswordAccepted | controllers/authControllers.js:9-10 | "Test@1234" and "StPtssword123!" are passwords |
| Validators.PasswordRejected | controllers/userControllers.js:5-6 | a password without an upper-case letter, shorter than eight, or without a special character is refused |
| ErrorHandler.Handle | middlewares/errorHandler.js:3-27 | ValidationError gives 400 with its own message; UnauthorizedError gives 401, ForbiddenError 403 and NotFound 404, each with a fixed message; every other name gives 500 "Internal Server Error"; the original error is kept |
| ErrorHandler.HandleIgnoresMessage | middlewares/errorHandler.js:10-19 | except for validation errors, status and message depend on the name alone |
| ErrorHandler.Raise | middlewares/errorHandler.js:23-26 | a handler's `next(error)` replies with the status and message the error handler picks |
| UserAuth.SelectHeader | middlewares/userAuthMiddlewear.js:6 | `Authorization || authorization`: the upper-case spelling unless it is missing or empty |
| UserAuth.BearerToken | middlewares/userAuthMiddlewear.js:9 | `split(" ")[1]`: the second space-separated field, or nothing when there is none |
| UserAuth.Split | middlewares/userAuthMiddlewear.js:9 | `split(" ")` yields at least one field and no field holds the separator |
| UserAuth.JoinSplit | middlewares/userAuthMiddlewear.js:9 | joining the fields with the separator gives the header back |
| UserAuth.SplitAtFirst | middlewares/userAuthMiddlewear.js:9 | the first field ends at the first separator and the rest is the split of what follows |
| UserAuth.Authenticate | middlewares/userAuthMiddlewear.js:4-31 | a missing header or one not starting with "Bearer" gives 400 "Missing request header"; an empty second field gives 400 "Missing access token"; a token the verifier rejects gives 403; a non-empty token the verifier accepts goes on with the decoded payload, and only that case goes on |
| UserAuth.BearerTokenIsSecondField | middlewares/userAuthMiddlewear.js:9 | the token is the text from the first space up to the next space or the end |
| UserAuth.MissingHeaderSamples | middlewares/userAuthMiddlewear.js:8 | no header, or a lower-case "bearer", gives 400 "Missing request header" |
| UserAuth.MissingTokenSamples | middlewares/userAuthMiddlewear.js:9-13 | "Bearer", "Bearer " and "Bearer  abc" give 400 "Missing access token" |
| UserAuth.EmptyHeaderFallsBack | middlewares/userAuthMiddlewear.js:6 | an empty `Authorization` header falls back to `authorization` |
| AdminAuth.AdminGate | middlewares/adminAuthMiddleware.js:3-10 | exactly the role "admin" continues; every other caller gets 403 "Access denied. Admins only." |
| AdminAuth.AdminGateReadsOnlyRole | middlewares/adminAuthMiddleware.js:4 | callers with the same role get the same answer |
| AdminAuth.AdminGateIsExact | middlewares/adminAuthMiddleware.js:4 | "Admin", "admin " and a missing role are denied |
| RoomModel.ParseRoomType | models/room.js:11-15 | exactly "Standard", "Deluxe" and "Suite" name a room type, and parsing inverts naming |
| RoomModel.ParseTypeName | models/room.js:11-15 | every room type parses back from its name |
| RoomModel.ValidateRoom | models/room.js:5-33 | saving succeeds exactly when the type is in the enumeration and the required description is non-empty; it then stores the document's values, otherwise it raises a validation error (400) |
| RoomModel.RevalidateStored | models/room.js:5-33 | a stored room passes validation again unchanged |
| PaymentModel.NewPayment | models/payment.js:5-28 | saving succeeds exactly when a payment method is given; the new payment is Pending, has no transaction id and is stamped with the creation time |
| Store.FindBooking | controllers/bookingControllers.js:94-97 | the lookup returns the first booking with that id and owner, or none if there is none |
| Store.HotelDb.NewId | controllers/bookingControllers.js:52-68 | each saved document gets a fresh id |
| BookingControllers.BookingInputCheck | controllers/bookingControllers.js:20-34 | missing dates, a zero date, or a check-in not before the check-out give "Invalid check-in or check-out date"; otherwise a non-amount gives "Invalid total amount format" |
| BookingControllers.BookRoom | controllers/bookingControllers.js:9-82 | booking a room changes the store and replies exactly as the booking transition says, and keeps the store invariants |
| BookingControllers.BookRoomChecksFirst | controllers/bookingControllers.js:20-34 | bad dates or amounts are refused before the store is read: nothing changes and the reply is the same for every store |
| BookingControllers.BookRoomRefusesRoom | controllers/bookingControllers.js:37-49 | a missing room gives 400 "Room not found", an unavailable one 400 "Room is not available", and nothing is written |
| BookingControllers.BookRoomSucceeds | controllers/bookingControllers.js:52-78 | success happens exactly with valid input, an available room and a payment method; it adds one booking for the caller with the given dates, amount and status (default "Pending"), one Pending payment of that amount referring to it, and marks the room unavailable |
| BookingControllers.BookRoomLeavesOrphanBooking | controllers/bookingControllers.js:60-72 | with no payment method the booking stays saved, no payment is stored, the room stays available and the reply is 400 |
| BookingControllers.SecondBookingRefused | controllers/bookingControllers.js:45-49 | after a successful booking, any further booking of that room is refused as not available and changes nothing |
| BookingControllers.BookRoomPreservesValid | controllers/bookingControllers.js:52-72 | booking keeps the store invariants |
| BookingControllers.BookingsOf | controllers/bookingControllers.js:85 | the caller's bookings are exactly the stored bookings with that customer |
| BookingControllers.BookingsOfAppend | controllers/bookingControllers.js:85 | the caller's bookings are listed in the order they were saved: a later booking comes after the earlier ones, and only if it is the caller's |
| BookingControllers.GetAllBookings | controllers/bookingControllers.js:83-90 | the reply holds exactly the caller's bookings |
| BookingControllers.GetBookingById | controllers/bookingControllers.js:91-109 | a booking is returned exactly when the caller owns one with that id; otherwise 404 "Booking not found" |
| BookingControllers.CancelBooking | controllers/bookingControllers.js:110-140 | cancelling changes the store and replies exactly as the cancel transition says, and keeps the invariants |
| BookingControllers.NotOwnedLooksMissing | controllers/bookingControllers.js:94-103 | a booking of someone else is answered exactly like a missing one, by both lookup and cancel |
| BookingControllers.CancelSucceedsIffOwned | controllers/bookingControllers.js:112-136 | cancelling succeeds exactly when the caller owns a booking with that id, including when its room was deleted |
| BookingControllers.FindBookingAfterUpdate | controllers/bookingControllers.js:113-125 | rewriting the found booking keeps the lookup pointing at it |
| BookingControllers.CancelFreesRoom | controllers/bookingControllers.js:124-136 | a cancelled booking has status "Cancelled"; its room, if still stored, is available; a deleted room stays deleted; no other booking, no other room and no other field changes |
| BookingControllers.CancelIdempotent | controllers/bookingControllers.js:124-132 | cancelling twice is the same as cancelling once |
| BookingControllers.CancelAfterBooking | controllers/bookingControllers.js:52-72 | the booking just made can be cancelled by its maker, which makes the room available again |
| BookingControllers.CancelPreservesValid | controllers/bookingControllers.js:124-132 | cancelling keeps the store invariants |
| RoomControllers.CreateRoomCheck | controllers/roomControllers.js:50-79 | a missing field is reported before any format; then room number, type, price and beds are checked in that order, each failure with its own message |
| RoomControllers.CreateRoomAsWrittenNeverStores | controllers/roomControllers.js:81-90 | as written, no request creates a room: every well-formed request ends in the schema's validation error |
| RoomControllers.CreateRoom | controllers/roomControllers.js:39-97 | creating a room changes the store and replies exactly as the corrected create transition says, and keeps the invariants |
| RoomControllers.CreateRoomStores | controllers/roomControllers.js:41-93 | with the description passed on, a room is created exactly when the checks pass, a description is given and the number is free; it holds the request's values (amenities default to none, availability to true) and can be fetched by id |
| RoomControllers.CreateRoomDuplicateNumber | models/room.js:6-10 | a second room with a number in use gets 500 and nothing is stored |
| RoomControllers.CreateRoomRefusedChangesNothing | controllers/roomControllers.js:50-93 | every refused creation leaves the store as it was, and every successful one changes it |
| RoomControllers.CreateRoomPreservesValid | controllers/roomControllers.js:81-90 | creating a room keeps the store invariants |
| RoomControllers.GetAllRooms | controllers/roomControllers.js:9-16 | the reply holds exactly the stored rooms |
| RoomControllers.GetRoomById | controllers/roomControllers.js:17-38 | a missing id gives 400, an unknown one 404 "Room not found"; otherwise the stored room |
| RoomControllers.UpdateRoomCheck | controllers/roomControllers.js:110-132 | the id is required; then only the given fields are format-checked, in the order room number, price, beds; the type is not checked |
| RoomControllers.Patch | controllers/roomControllers.js:142-147 | given roomNumber, type, price and beds overwrite; amenities only when non-empty; availability whenever given, false included; the description is kept |
| RoomControllers.UpdateRoom | controllers/roomControllers.js:98-157 | updating changes the store and replies exactly as the update transition says, and keeps the invariants |
| RoomControllers.UpdateRoomChecksFirst | controllers/roomControllers.js:110-134 | malformed fields are refused before the lookup, with the same reply for every store |
| RoomControllers.UpdateRoomAssigns | controllers/roomControllers.js:134-153 | an update succeeds exactly when the checks pass, the room exists, any given type is in the enumeration and the number is free; it changes exactly the given fields of that room and leaves the bookings, payments and users as they were; an unknown type gives 400 and changes nothing |
| RoomControllers.UpdateRoomRefusedChangesNothing | controllers/roomControllers.js:134-140 | every refused update leaves the store as it was; a well-formed update of an unknown id gets 404 "Room not found" |
| RoomControllers.UpdateRoomDuplicateNumber | controllers/roomControllers.js:142-153 | moving a room onto a number another room holds gets 500 and nothing changes |
| RoomControllers.EmptyUpdateChangesNothing | controllers/roomControllers.js:142-153 | an update with no fields answers with the stored room and changes nothing |
| RoomControllers.UpdateRoomPreservesValid | controllers/roomControllers.js:142-149 | updating keeps the store invariants |
| RoomControllers.DeleteRoom | controllers/roomControllers.js:158-182 | deleting changes the store and replies exactly as the delete transition says, and keeps the invariants |
| RoomControllers.DeleteThenGet | controllers/roomControllers.js:168-178 | after a delete the room is fetched and deleted with 404, the other rooms are unchanged and bookings stay as they were |
| RoomControllers.DeleteUnknown | controllers/roomControllers.js:168-174 | deleting an id that names no stored room gives 404 "Room not found" and changes nothing |
| AuthControllers.TokenMaxAges | controllers/authControllers.js:14-15 | the access cookie lives 900000 ms, the refresh cookie 604800000 ms |
| AuthControllers.TokenCookies | controllers/authControllers.js:17-31 | sign-up and sign-in set an access and a refresh cookie, both for the user, with those lifetimes |
| AuthControllers.ProjectHidesPassword | controllers/authControllers.js:74-79 | the returned user holds id, name, e-mail and role and is blind to the password |
| AuthControllers.SignupCheck | controllers/authControllers.js:43-62 | missing fields, then name, e-mail and password formats, each with its own message, in that order |
| AuthControllers.Signup | controllers/authControllers.js:39-100 | sign-up changes the store and replies exactly as the sign-up transition says, and keeps the invariants |
| AuthControllers.SignupChecksFirst | controllers/authControllers.js:43-62 | a malformed sign-up gets the same reply for every store and changes nothing |
| AuthControllers.SignupDuplicateEmail | controllers/authControllers.js:64-69 | an e-mail already stored gives 400 "User already exists with this email" and changes nothing |
| AuthControllers.SignupCreates | controllers/authControllers.js:64-96 | sign-up succeeds exactly for a well-formed request with a new e-mail; it appends one user with the default role and replies 201 with its public fields and cookies |
| AuthControllers.SignupPreservesValid | controllers/authControllers.js:71-72 | sign-up keeps user ids and e-mails distinct |
| AuthControllers.SigninCheck | controllers/authControllers.js:105-119 | missing fields, then e-mail format, then password format |
| AuthControllers.Signin | controllers/authControllers.js:101-159 | failed checks give their message; an unknown e-mail gives 401 "User not registered"; for a registered e-mail a matching password returns that user's public fields and cookies with 200, and any other password gives 401 "Invalid credentials" |
| AuthControllers.SigninChecksFirst | controllers/authControllers.js:105-126 | a malformed sign-in gets the same reply whatever the store and the hash comparison |
| AuthControllers.SigninAfterSignup | controllers/authControllers.js:121-155 | a new user signs in with the registered password and gets the same session as at sign-up |
| AuthControllers.Signout | controllers/authControllers.js:160-167 | sign-out clears exactly the two token cookies |
| AuthControllers.Refresh | controllers/authControllers.js:168-215 | a missing cookie gives 400, a rejected token 401, an unknown user 404; a verified token for a stored user gets 200 and a new fifteen-minute access cookie for that user, and only that case succeeds |
| UserControllers.WithoutPasswordForgetsOnlyPassword | controllers/userControllers.js:11 | removing the password loses that field and no other |
| UserControllers.GetUserInfo | controllers/userControllers.js:9-17 | the reply is the caller's record without the password |
| UserControllers.GetUserInfoIgnoresPassword | controllers/userControllers.js:11-13 | the reply does not depend on any stored password |
| UserControllers.UpdateUserProfile | controllers/userControllers.js:18-35 | a profile update changes the store and replies exactly as the patch transition says, and keeps the invariants |
| UserControllers.UpdateProfilePatches | controllers/userControllers.js:20-31 | only the caller changes, and only the non-empty name, phone number and address; e-mail, role and password stay |
| UserControllers.UpdateProfileIdempotent | controllers/userControllers.js:23-27 | sending the same update twice is the same as once |
| UserControllers.ChangePasswordCheck | controllers/userControllers.js:41-61 | missing fields, current format, new format, then equal passwords, in that order |
| UserControllers.ChangePassword | controllers/userControllers.js:36-81 | a password change changes the store and replies exactly as the change transition says, and keeps the invariants |
| UserControllers.ChangePasswordOnlyWhenAllPass | controllers/userControllers.js:57-77 | the password is replaced exactly when every check passes and the current one matches; then it becomes the new one, which differs from the current one given; every failure changes nothing |
| UserControllers.ChangePasswordChecksFirst | controllers/userControllers.js:41-61 | a malformed request gets the same reply whatever the store, the caller and the hash comparison |
| PaymentControllers.PaymentAmountCheck | controllers/paymentControllers.js:13-23 | an empty amount gives "Amount value is required"; any other non-amount gives "Invalid amount format" |
| PaymentControllers.ProcessPayment | controllers/paymentControllers.js:9-40 | success happens exactly for a valid amount the gateway accepts, with 201 and the gateway's client secret; a gateway error goes to the error handler |
| PaymentControllers.ProcessPaymentChecksFirst | controllers/paymentControllers.js:13-25 | a refused amount gets a 400 that no gateway behaviour changes |
| PaymentControllers.ProcessPaymentSamples | controllers/paymentControllers.js:13-23 | "", "invalid_amount" and "100.005" are refused with their messages |
| PaymentControllers.GetAllPayments | controllers/paymentControllers.js:41-48 | every stored payment, in store order |
| PaymentControllers.GetPaymentById | controllers/paymentControllers.js:49-70 | a missing id gives 400; an unknown id gives 404 "Payment not found"; otherwise the stored payment with that id |
| PaymentControllers.StoredPaymentsFound | controllers/paymentControllers.js:59-66 | in a valid store every payment is found by its id and refers to a stored booking |

## Findings

| source | as written | input that shows it | evidently intended | confidence | as-written member | corrected member |
|---|---|---|---|---|---|---|
| controllers/roomControllers.js:81-88 | `createRoom` builds the room without `description`, which models/room.js:16-19 requires, so `save()` always raises a validation error (400) | `{roomNumber: "101", type: "Deluxe", description: "A deluxe room", price: "200", beds: "2"}` | the request's description is stored and the reply is 201 (the room endpoint test sends a description and expects 201) | high, not executed | RoomControllers.CreateRoomAsWrittenNeverStores | RoomControllers.CreateRoomStores |

## Left out

- config/errorCodes.js is not part of this model. The status codes are taken to be the standard HTTP numbers (400, 401, 403, 404, 500).
- models/booking.js and models/user.js are not part of this model:
  - saving a booking is taken to always succeed;
  - a new user's role defaults to "user";
  - the stored password is whatever the handler assigned. Any hashing hook in the user model is not modelled.
- Token signing and verification, and the bcrypt comparison, are function parameters. Cookie flags (httpOnly, secure, sameSite) are not modelled.
- The payment-intent call to the payment gateway is a function parameter. Its currency and options are not modelled.
- Request fields are modelled as the text the patterns test, with `""` for a missing field. Number-to-string coercion is not modelled. So a JSON number 0, which JavaScript treats as missing, is modelled like the text "0".
- Dates are taken as JSON numbers: instants in milliseconds, with `None` for a missing date. The instant 0 counts as missing, as a number 0 does in JavaScript. A date sent as a string (which is how a `Date` object is serialised) is truthy even at the epoch and goes on to the comparison; that case is not modelled. `new Date(...)` parsing, including the invalid date that compares false, is not modelled.
- The document store's numeric casts are modelled as follows:
  - room number and beds become naturals;
  - prices and amounts become hundredths.

  The store actually casts these fields to IEEE double-precision numbers. The model keeps exact values, so the loss of precision above 2^53 is not modelled: "9007199254740992" and "9007199254740993" become the same number in the store, which gives a 500 duplicate-key error, while the model keeps two distinct room numbers.

  A malformed id that the store cannot cast (which the error handler answers with 500) is not modelled.
- Validation errors carry the message "<Model> validation failed". The store's full message, which lists each failing path, is not modelled.
- The error handler's body also carries the original error. A controller's reply in the model keeps only the status and message.
- Routing is not modelled:
  - the booking routes mount no access-token middleware, so `req.user` is unset there;
  - they name the parameter `id` while the handlers read `bookingId`.

  The model passes the caller and the ids explicitly.
- UserControllers: as routed, `req.user` is the decoded token payload, not a stored user document. The payload has no `toObject()`, `save()` or `password`, so as written getUserInfo and updateUserProfile throw and answer 500 for every caller, and changePassword does so for every request that passes its format checks (the 400 checks come before `password` is read). The model instead takes the caller to be the stored user with the token's user id, which is what these handlers expect, and models the behaviour they were written for. A caller missing from the store is answered as a thrown TypeError (500).
- GetAllRooms: returns the rooms as a set. The order in which the store lists them is not modelled.
- Requests run one at a time. Interleaving of concurrent requests at each `await` (two bookings passing the availability check together) is not modelled.
- In `refresh`, an error thrown inside the verification callback does not reach the error handler. That is not modelled.
- Strings are sequences of Unicode scalar values, while JavaScript strings are sequences of UTF-16 code units. A character outside the Basic Multilingual Plane is one character in the model and two code units in JavaScript. Lone surrogates cannot be represented. Every pattern except the password pattern accepts only characters of that plane, so the difference shows only there (next line).
- Validators.IsPassword: counts a character outside the Basic Multilingual Plane once, where `.{8,16}` counts its two code units. So "Aa1!" followed by seven U+1F600 is accepted by the model (11 characters) and refused by the source (18 code units).
- Logging to the console, and the test-only authentication middleware, are not modelled.
