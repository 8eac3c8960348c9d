# Salt and user microservices, modelled in Dafny

The system is two small HTTP services. The salt service answers
`/generate-salt` with a 12-character random salt, in two variants: a
letters-only one (`main.go`) and an alphanumeric one (`service1.go`, the
variant the user service calls). The user service (`service2.go`) registers
users and looks them up by email.

This project models the logic inside those services:

- `ascii.dfy` (module `Ascii`): the ASCII character classes, and a proof that
  the 52-letter literal holds only letters.
- `email.dfy` (module `EmailValidation`): `isValidEmail`, the RE2 pattern
  `^[a-zA-Z0-9._%+-]+@[a-zA-Z0-9.-]+\.[a-zA-Z]{2,}$`, as a hand-written
  recogniser. It cuts the address at its first `@` and at the last `.` after
  it, then checks each part against its class. Its contract says that it
  accepts exactly the strings L + "@" + D + "." + T the pattern describes;
  lemmas show that the decomposition is unique.
- `user_service.dfy` (module `UserService`): the user collection is the `seq`
  field `users` of class `UserStore`. `CreateUserHandler` runs the gates in
  the handler's order: decode, validate, duplicate check, salt, digest, write.
  It is proved equal to the pure function `CreateUser` of the previous
  collection. Lemmas about `CreateUser` give each gate's status and show that
  nothing is written on error. On success exactly one record is appended,
  and distinct emails stay distinct. `GetUserByEmail` and `GetUserHandler` are
  the lookup, with 404, 500 and 200.
- `letter_salt.dfy` (module `LetterSaltService`) and `alnum_salt.dfy` (module
  `AlnumSaltService`): the buffer-filling loops over a 12-slot Dafny `array`,
  and the `{"salt": ...}` response maps.
- `wrappers.dfy` (module `Wrappers`): `Option`.

Inputs the model takes instead of library calls:

- The random source is a sequence of indices `draws`. Each index lies in
  `[0, |alphabet|)`, which is what `rand.Intn(len(alphabet))` promises.
- MD5 followed by hex encoding is a parameter `digest: string -> string`.
  Nothing is assumed about it.
- Each of these is an `Option` input, where `None` means failure:
  - the decoded request body (a `User`, as the handler decodes into one);
  - the salt service's reply.
- The write and the read each take a failure flag.
- The lookup's URL parameter is a plain `email` argument.

Status codes and wiring, as the code has them:

- The alphanumeric salt handler never calls `WriteHeader`, so it answers 200.
- The letters-only handler answers 201.
- The user service calls the alphanumeric one, on port 3000.

## Model

| member | source | states |
|---|---|---|
| EmailValidation.Split | service2.go:104-107 | a successful cut gives e == local + "@" + domain + "." + top, with no `@` in local and no `.` in top |
| EmailValidation.AcceptedHasParts | service2.go:104-107 | every accepted address is local + "@" + domain + "." + top, each part nonempty and of its character class, the label at least two letters |
| EmailValidation.PartsAreAccepted | service2.go:104-107 | every L + "@" + D + "." + T with L over `[a-zA-Z0-9._%+-]+`, D over `[a-zA-Z0-9.-]+`, T over `[a-zA-Z]{2,}` is accepted, and the recogniser recovers exactly (L, D, T): the decomposition is unique |
| EmailValidation.IsValidEmail | service2.go:104-107 | isValidEmail(e) holds iff some L over `[a-zA-Z0-9._%+-]+`, D over `[a-zA-Z0-9.-]+` and T over `[a-zA-Z]{2,}` make e == L + "@" + D + "." + T (both directions) |
| EmailValidation.SplitCharacterisation | service2.go:105-106 | the cut at the first `@` and the last `.` succeeds with parts of the right classes exactly when e == L + "@" + D + "." + T for some L, D, T of those classes |
| EmailValidation.SplitRecovers | service2.go:105 | cutting L + "@" + D + "." + T, each part of its class, gives back exactly (L, D, T) |
| EmailValidation.ExactlyOneAt | service2.go:105 | an accepted address contains the character `@` exactly once |
| EmailValidation.TopLabelIsAfterLastDot | service2.go:105 | in an accepted address the domain is nonempty, the `.` that opens the label follows it, and no `.` comes after that one |
| EmailValidation.AcceptsSimpleAddress | service2.go:105 | "a@b.com" is accepted |
| EmailValidation.AcceptsDottedDomain | service2.go:105 | "x.y@mail.example.org" is accepted, with domain "mail.example" and label "org" |
| EmailValidation.RejectsNoAt | service2.go:105 | "not-an-email" is rejected |
| EmailValidation.RejectsShortTopLabel | service2.go:105 | "a@b.c" is rejected: a one-letter label does not match `{2,}` |
| UserService.CountEmail | service2.go:123-130 | the count of records with this email is at most the collection size, and positive iff some record has exactly this email |
| UserService.FindFirst | service2.go:193-201 | a result is a stored record with exactly the queried email; there is no result iff no record has that email |
| UserService.CreateUser | service2.go:47-85 | the status is 400, 500 or 201; whenever it is not 201 the collection is unchanged; 400 is the only status without a salt request; 201 implies a decoded body, a valid and unused email, a salt and a successful write, and the collection becomes old + [User(email, salt, digest(salt + password))] |
| UserService.MalformedBodyRejected | service2.go:48-55 | an undecodable body gives 400, no salt request, and an unchanged collection |
| UserService.InvalidEmailRejected | service2.go:57-60 | an invalid email gives 400, no salt request, and an unchanged collection |
| UserService.DuplicateEmailRejected | service2.go:62-65 | a valid email already stored gives 400, no salt request, and an unchanged collection |
| UserService.SaltFailureIsServerError | service2.go:67-71 | a failed salt request, after the client checks pass, gives 500 and an unchanged collection |
| UserService.SaveFailureIsServerError | service2.go:78-82 | a failed write gives 500 and an unchanged collection |
| UserService.RegistrationSucceeds | service2.go:73-84 | when every gate passes, the status is 201 and exactly the record (email, salt, digest(salt + password)) is appended |
| UserService.CreateUserKeepsEmailsDistinct | service2.go:62-85 | a registration keeps "all stored emails are distinct" |
| UserService.FindFirstIsUnique | service2.go:193-201 | when stored emails are distinct, the lookup returns the one record with that email |
| UserService.FindFirstAppended | service2.go:193-201 | after appending a record whose email no older record has, the lookup of that email finds the appended record |
| UserService.RegisterThenLookup | service2.go:47-101 | after a successful registration, getUserHandler for that email (store call succeeding) answers 200 with the new record, whose password is digest(salt + plaintext); no assumption on the older records |
| UserService.SecondRegistrationRejected | service2.go:62-65 | registering an email again right after it was registered gives 400, leaves the collection unchanged, and one record with that email remains |
| UserService.CountAppend | service2.go:123-130 | appending a record raises the count for an email by one exactly when the record has that email |
| UserService.UserStore.IsDuplicateEmail | service2.go:109-131 | true iff some stored record has exactly this email |
| UserService.UserStore.SaveUserToMongo | service2.go:157-177 | reports an error iff the store call fails; appends the record on success and changes nothing on failure |
| UserService.UserStore.GetUserByEmail | service2.go:179-202 | StoreError iff the store call fails; NoDocuments iff the call succeeds and no record has the email; otherwise a stored record with exactly that email |
| UserService.UserStore.GetUserHandler | service2.go:87-102 | 500 iff the store fails; 404 iff it succeeds and the email is absent; 200 iff it is present, and only 200 carries a body, a stored record with exactly that email |
| UserService.UserStore.CreateUserHandler | service2.go:47-85 | the status, the salt request and the new collection are those of CreateUser on the old collection; distinct stored emails stay distinct |
| LetterSaltService.LetterRunesAreLetters | main.go:10 | letterRunes has 52 entries, all ASCII letters |
| LetterSaltService.Generate | main.go:17-34 | status 201; the map has the single key "salt"; its value has exactly 12 characters; position i is letterRunes[draws[i]]; every character is in letterRunes, is a letter, is not a digit, and is not the zero rune |
| AlnumSaltService.CharsAreAlphanumeric | service1.go:22 | chars has 62 entries, each an ASCII letter or digit |
| AlnumSaltService.GenerateSalt | service1.go:21-28 | exactly 12 characters; position i is chars[draws[i]]; every character is in chars, is alphanumeric, and is not the zero rune |
| AlnumSaltService.HandleGenerateSalt | service1.go:13-16 | status 200; the map has the single key "salt", bound to a 12-character salt whose position i is chars[draws[i]] |

## Left out

- HTTP routing, middleware, `ListenAndServe`, the text of error messages,
  response writing, ports and headers. Only status codes and payloads are
  modelled. This also leaves out that the letters-only handler sets
  `Content-Type` after `WriteHeader`, so the header has no effect.
- JSON decoding and encoding. The model takes the decoded value or a
  decode failure as input. Two results of that choice:
  - The store-assigned `_id` is not modelled, including an id a client
    could supply in the body.
  - A salt reply without a "salt" key decodes to the empty salt without an
    error. The model covers this only because any string, `""` included, is
    a possible reply.
- The connect, ping and disconnect calls to the document store. They are
  replaced by the `users` field and a failure flag per call.
- The `panic` paths of `isDuplicateEmail`. The duplicate check is modelled as
  never failing. In the code, `middleware.Recoverer` (service2.go:36) turns
  such a panic into a 500 before any salt is requested. So the CreateUser
  promise "400 is the only status without a salt request" holds only in the
  model.
- MD5 and hex encoding. They are the parameter `digest`.
  - This is why the model cannot show that the stored password differs from
    the plaintext: that needs facts about MD5.
- `math/rand` and its seeding. The draws are an input, so uniformity and
  distinct salts across calls, both probabilistic, are not stated.
- UserService.FindFirst: returns the first match in insertion order. The
  store's `FindOne` without a sort promises only some match. So the
  contracts of FindFirst, GetUserByEmail and GetUserHandler promise only "a
  stored record with that email". FindFirstIsUnique pins the result down
  when emails are distinct.
- Concurrency, including the race between the duplicate check and the
  insert of two concurrent registrations. The model is sequential, so it
  proves that emails stay distinct only when requests run one at a time.
- Strings are sequences of characters. The byte-level UTF-8 view of Go
  strings is not modelled. Every class in the pattern is ASCII, so a
  non-ASCII character never matches either way.
