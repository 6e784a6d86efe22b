# A verified model of a Go document store

This project models, in Dafny, the core of a small Go course repository in which a document store is built up lesson by lesson:

- **The marshal engine.** This is `lesson_07/internal/documentstore/document.go`. `MarshalDocument` turns a Go struct into a `Document`: a map from field names to tagged `DocumentField`s (`string`, `number`, `bool`, `array`, `object`). `UnmarshalDocument` writes such a document back into a pointer to a struct.
- **Collections and stores.** These are maps of documents keyed by a configured primary key, in the versions of lessons 03–07. Lesson 06 adds dumping a store through a codec and to a file.
- **The users service.** This is `lesson_05/users/user.go`. It stores users as marshalled documents in a collection keyed by `"ID"`.
- **The lesson 02 exercises.** These are Fibonacci, primality, binary palindromes, bracket matching on a rune stack, and incrementing a base-2 string.

Go reflection is replaced by a closed universe of Go types and values (module `GoValues`):

- A `GoValue` is a string, bool, number, slice, array, struct (named members, exported or not), non-nil pointer, typed nil pointer, or a value of another kind (map, chan, func, …).
- `Zero(t)` plays `reflect.New(t).Elem()`.

A `DocumentField`'s payload (module `DocumentModel`) is separate from its tag. It is untyped `nil`, a typed nil `*Document`, a nested document, a `[]DocumentField`, or a plain Go value. Documents whose tag and payload disagree can therefore be stated and rejected as the code rejects them.

How the code is modelled:

- **Marshal side.** Pure functions (module `Marshal`).
- **Unmarshal side.** Destinations are written in place in Go. Here it is modelled on values:
  - `Written(value, err)` is the destination after all the writes that happened, together with the error, so writes made before a failure are kept.
  - The methods `UnmarshalDocument`, `UnmarshalMembers`, `UnmarshalItems` and `UnmarshalValue` run the loops of the Go code.
  - Each method is proved equal to a specification function (`Unmarshalled…`). Lemmas state what those functions promise.
- **Round trip.** Module `RoundTrip` proves that unmarshalling a marshalled value into a destination of the same type restores the value. It also shows the one shape for which that fails: nil pointer members.
- **Collections and stores.** These are classes whose methods update their map fields. Go's map iteration in `List` is modelled by a choice loop; a ghost sequence of keys records the order in which the documents were picked.

## Model

| member | source | states |
|---|---|---|
| GoValues.Zero | lesson_07/internal/documentstore/document.go:184 | the value `reflect.New` allocates has exactly the requested type and as many pointer layers as the type |
| GoValues.ZeroWellTyped | lesson_07/internal/documentstore/document.go:184 | the zero value of a well-formed type is a value Go could hold (element types agree, exported field names distinct) |
| Marshal.MarshalDocumentGuards | lesson_07/internal/documentstore/document.go:28-43 | an error is "input is nil" iff there is no input, "input pointer is nil" iff the input is a nil pointer, and "expected struct" with kind k iff, after one dereference, the value is not a struct and has kind k |
| Marshal.MarshalDocumentFields | lesson_07/internal/documentstore/document.go:45-69 | for a struct or pointer to struct, marshalling succeeds iff every exported field is marshallable; the document's keys are exactly the exported field names, each mapped to that field's marshalled value; on failure the error names the first exported field that fails, with its cause |
| Marshal.MarshalMembersSucceeds | lesson_07/internal/documentstore/document.go:50-67 | the field loop succeeds iff every remaining exported field marshals; unexported fields are skipped |
| Marshal.MarshalMembersFails | lesson_07/internal/documentstore/document.go:61-64 | a failing field loop reports the first failing exported field's name and its error |
| Marshal.MarshalMembersFields | lesson_07/internal/documentstore/document.go:50-67 | the loop adds exactly the exported names to the map, each bound to its marshalled value, and leaves other keys as they were |
| Marshal.MarshalValueSucceedsIff | lesson_07/internal/documentstore/document.go:72-133 | marshalValue succeeds iff no unsupported kind is reachable through pointers, elements and exported nested fields |
| Marshal.MarshalValueTagged | lesson_07/internal/documentstore/document.go:72-133 | a marshalled field's tag is the one for the kind of the dereferenced value (a nil pointer is an object), and its payload agrees with the tag |
| Marshal.MarshalArrayElements | lesson_07/internal/documentstore/document.go:104-118 | slices and arrays marshal iff every element does, to an `array` field holding one marshalled field per element in order; otherwise the error is "array element i" for the first failing i |
| Marshal.MarshalItems | lesson_07/internal/documentstore/document.go:106-114 | the element loop only appends: the result extends the accumulated items by one entry per remaining element |
| Marshal.MarshalItemsSucceeds | lesson_07/internal/documentstore/document.go:107-114 | the element loop succeeds iff every remaining element marshals, with each entry equal to that element's field |
| Marshal.MarshalItemsFails | lesson_07/internal/documentstore/document.go:109-112 | a failing element loop reports the first failing index and its error |
| Marshal.MarshalMembersTagged | lesson_07/internal/documentstore/document.go:50-67 | a map built from well-tagged fields is well tagged |
| Marshal.MarshalDocumentTagged | lesson_07/internal/documentstore/document.go:28-70 | every field of a marshalled document, at any depth, has a payload that agrees with its tag |
| Marshal.BlankFieldsSkipped | lesson_07/internal/documentstore/document.go:50-67 | unexported fields, such as the blank `_` fields a struct may repeat, are skipped, so repeated blank names do not stop a struct from marshalling |
| Unmarshal.UnmarshalDocument | lesson_07/internal/documentstore/document.go:135-179 | the guards and the field loop give exactly the destination and error of the specification `Unmarshalled` |
| Unmarshal.UnmarshalMembers | lesson_07/internal/documentstore/document.go:153-176 | the field loop gives exactly the members and error of `UnmarshalledMembers` |
| Unmarshal.UnmarshalItems | lesson_07/internal/documentstore/document.go:257-261 | the element loop gives exactly the elements and error of `UnmarshalledItems` |
| Unmarshal.UnmarshalValue | lesson_07/internal/documentstore/document.go:181-281 | unmarshalValue gives exactly the destination and error of `UnmarshalledValue` |
| Unmarshal.UnmarshalDocumentGuards | lesson_07/internal/documentstore/document.go:135-151 | "doc is nil", "output is nil", "output must be a non-nil pointer" and "expected pointer to struct" each occur iff their condition holds, in that order of precedence; on any of them the output is untouched |
| Unmarshal.UnmarshalDocumentFields | lesson_07/internal/documentstore/document.go:153-178 | unmarshalling into a pointer to a struct succeeds iff no exported field present in the document fails; on success every member is written (present exported ones unmarshalled, the rest unchanged); on failure the error names the first failing field and the members up to it are written |
| Unmarshal.UnmarshalledMembersSpec | lesson_07/internal/documentstore/document.go:153-176 | the same three facts for the field loop started at any position |
| Unmarshal.MembersSucceedIff | lesson_07/internal/documentstore/document.go:154-176 | the field loop succeeds iff no remaining exported, present field fails |
| Unmarshal.MembersWrittenOnSuccess | lesson_07/internal/documentstore/document.go:154-176 | after a successful field loop every member is the written member |
| Unmarshal.MembersStopAtFirstFailure | lesson_07/internal/documentstore/document.go:173-175 | a failing field loop stops at the first failing field, reports its name, and keeps the writes before it |
| Unmarshal.MembersErrorNamesField | lesson_07/internal/documentstore/document.go:173-175 | every error from the field loop is wrapped with a field name |
| Unmarshal.ItemsSucceedIff | lesson_07/internal/documentstore/document.go:257-261 | the element loop succeeds iff no remaining element fails |
| Unmarshal.ItemsWrittenOnSuccess | lesson_07/internal/documentstore/document.go:257-261 | after a successful element loop every element is unmarshalled in place |
| Unmarshal.ItemsStopAtFirstFailure | lesson_07/internal/documentstore/document.go:258-260 | a failing element loop stops at the first failing index and keeps the elements written before it |
| Unmarshal.UnmarshalledItemsSpec | lesson_07/internal/documentstore/document.go:257-261 | the same three facts for the element loop started at any position |
| Unmarshal.PointersFollowed | lesson_07/internal/documentstore/document.go:182-187 | pointers are followed down to a non-pointer target, and the error is the target's; a nil pointer is allocated and stays allocated |
| Unmarshal.TagChecked | lesson_07/internal/documentstore/document.go:191-192 | for every supported destination kind, a tag other than the kind's tag fails with "expected <tag>, got <tag>" (also lines 202, 215, 229, 247, 265) |
| Unmarshal.UnsupportedDestinationRejected | lesson_07/internal/documentstore/document.go:278-279 | destinations of any other kind fail with "unsupported destination kind" |
| Unmarshal.UnmarshalScalar | lesson_07/internal/documentstore/document.go:190-226 | string, bool and number destinations succeed iff the tag matches and the payload is a value of that kind; the destination then holds the payload; otherwise it is unchanged, and the error is "stored value is not …", "number value is invalid" or "cannot convert" as the code picks |
| Unmarshal.UnmarshalArray | lesson_07/internal/documentstore/document.go:246-262 | an array destination with a different length fails with "array length mismatch" and is unchanged; otherwise elements are unmarshalled in place, each failure stopping at its index with the earlier writes kept |
| Unmarshal.UnmarshalSlice | lesson_07/internal/documentstore/document.go:228-244 | a slice destination succeeds iff the tag is array, the payload is a field list and every item unmarshals into a zero element; the slice is then replaced by one new element per item; on failure the slice is unchanged |
| Unmarshal.UnmarshalStruct | lesson_07/internal/documentstore/document.go:264-276 | a struct destination is left as is for a nil payload, fails with "doc is nil" for a typed nil document and with a stored-value error for anything but a document; a document is unmarshalled as through `UnmarshalDocument` on the struct's address |
| Unmarshal.UnmarshalPreservesType | lesson_07/internal/documentstore/document.go:181-281 | unmarshalling never changes the destination's type and always leaves a value Go could hold |
| RoundTrip.RoundTripValue | lesson_07/internal/documentstore/document.go:72-281 | every value built from strings, bools, numbers, slices, arrays, structs with exported fields and non-nil pointers marshals, and unmarshals back into any destination of its type exactly (up to nil versus empty slices), without error |
| RoundTrip.RoundTripDocument | lesson_05/documentstore/document_marshal_test.go:269-291 | MarshalDocument of such a struct (or a pointer to it) succeeds, and UnmarshalDocument of the result into a pointer to any struct of the same type restores it (up to nil versus empty slices) |
| RoundTrip.RoundTripIntoZero | lesson_05/documentstore/document_marshal_test.go:269-291 | the same for a freshly declared (zero) destination, as in the round-trip test |
| RoundTrip.NilStructPointerAllocatedThenFails | lesson_07/internal/documentstore/document.go:73-79 | a nil struct pointer marshals to an object holding a typed nil document; unmarshalling that into a nil pointer allocates the struct and then fails with "doc is nil" |
| RoundTrip.NilPointerDoesNotRoundTrip | lesson_07/internal/documentstore/document.go:182-187 | no nil pointer of any type survives a round trip without error |
| RoundTrip.NilPointerMemberBreaksRoundTrip | lesson_07/internal/documentstore/document.go:268-276 | a struct with a nil pointer field marshals, but unmarshalling the result fails |
| StoreErrors.PrimaryKey | lesson_07/internal/documentstore/collection.go:20-36 | Put's key extraction is "config not found" iff there is no config, "unsupported document field" iff the primary-key field is missing or not tagged string, panics iff it is tagged string but holds no string, and otherwise yields that string |
| StoreErrors.PrimaryKeyOfStringField | lesson_07/internal/documentstore/collection.go:24-36 | a document whose primary-key field is a string field is stored under that string |
| Lesson07Collection.Collection.Put | lesson_07/internal/documentstore/collection.go:19-48 | a rejected or panicking key leaves the items unchanged; a valid key stores the document under it, replacing any previous one, and grows the collection only for a new key; nothing else changes |
| Lesson07Collection.Collection.Get | lesson_07/internal/documentstore/collection.go:50-60 | found iff the key is present, returning its document; otherwise nil |
| Lesson07Collection.Collection.Delete | lesson_07/internal/documentstore/collection.go:62-72 | true iff the key was present; afterwards the key is gone and nothing else changes |
| Lesson07Collection.Collection.List | lesson_07/internal/documentstore/collection.go:74-81 | returns each stored document exactly once, one per distinct key |
| Lesson05Collection.Collection.Put | lesson_05/documentstore/collection.go:19-30 | the same key checks in the lesson 05 order; a valid key stores the document under it |
| Lesson05Collection.Collection.Get | lesson_05/documentstore/collection.go:32-35 | found iff the key is present, returning its document |
| Lesson05Collection.Collection.Delete | lesson_05/documentstore/collection.go:37-41 | reports whether the key was present and removes it, nothing else |
| Lesson05Collection.Collection.List | lesson_05/documentstore/collection.go:43-49 | returns each stored document exactly once |
| Lesson06Store.Store.constructor | lesson_06/documentstore/store.go:15-19 | a new store has no collections |
| Lesson06Store.Store.CreateCollection | lesson_06/documentstore/store.go:21-44 | a nil config fails with "config not found" and an existing name with "already exists", both leaving the store unchanged; otherwise a new empty collection with that config is added under the name |
| Lesson06Store.Store.GetCollection | lesson_06/documentstore/store.go:46-56 | returns the collection under the name, or "collection not found" |
| Lesson06Store.Store.DeleteCollection | lesson_06/documentstore/store.go:58-70 | fails with "collection not found" iff the name is absent; afterwards the name is gone and nothing else changes |
| Lesson06Store.Dump | lesson_06/documentstore/store.go:88-101 | a nil store is an error; otherwise the result is the codec's encoding of the store's contents, codec errors passed on |
| Lesson06Store.NewStoreFromDump | lesson_06/documentstore/store.go:72-86 | empty data is an error and codec errors are passed on; otherwise the new store has exactly the decoded contents, each in a new collection |
| Lesson06Store.NewStoreFromFile | lesson_06/documentstore/store.go:103-114 | an empty file name is an error, read errors are passed on, and the data read is loaded as by NewStoreFromDump |
| Lesson06Store.DumpToFile | lesson_06/documentstore/store.go:116-160 | an empty file name or nil store is an error; otherwise the store's encoding is written to the file, codec and write errors passed on |
| Lesson06Store.DeleteThenGet | lesson_06/documentstore/store.go:58-70 | after deleting a collection, getting it fails while another collection is kept |
| Lesson06Store.CreateGetPut | lesson_06/documentstore/store.go:21-56 | a created collection is the one GetCollection returns, and a Put through it is visible |
| Lesson05Store.Store.constructor | lesson_05/documentstore/store.go:7-11 | a new store has no collections |
| Lesson05Store.Store.CreateCollection | lesson_05/documentstore/store.go:13-25 | an existing name fails with "already exists" and changes nothing; otherwise a new empty collection with the given (possibly nil) config is added |
| Lesson05Store.Store.GetCollection | lesson_05/documentstore/store.go:27-33 | returns the collection under the name, or "collection not found" |
| Lesson05Store.Store.DeleteCollection | lesson_05/documentstore/store.go:35-42 | fails iff the name is absent; the name is removed either way |
| Lesson05Store.NilConfigRejectsPut | lesson_05/documentstore/collection.go:19-22 | a collection created without a config rejects every Put with "config not found" and stays empty |
| Lesson04Store.Store.constructor | lesson_04/documentstore/store.go:7-11 | a new store has no collections |
| Lesson04Store.Store.CreateCollection | lesson_04/documentstore/store.go:13-25 | returns true with a new empty collection iff the name was absent; otherwise (false, nil) and nothing changes |
| Lesson04Store.Store.GetCollection | lesson_04/documentstore/store.go:27-30 | found iff the name is present, with its collection, else nil |
| Lesson04Store.Store.DeleteCollection | lesson_04/documentstore/store.go:32-36 | reports whether the name was present and removes it |
| Lesson04Store.CreateTwiceThenGet | lesson_04/documentstore/documentstore_test.go:15-56 | creating a name twice fails the second time, and GetCollection returns the very collection created first |
| Lesson04Store.DeleteTwice | lesson_04/documentstore/documentstore_test.go:58-83 | deleting succeeds once, then the collection is gone and a second delete reports false |
| Lesson03Store.StoredKey | lesson_03/documentstore/documentstore.go:25-37 | a document has a key iff its "key" field exists, is tagged string and holds a string, which is then the key |
| Lesson03Store.Documents.constructor | lesson_03/documentstore/documentstore.go:22 | the package-level map starts empty |
| Lesson03Store.Documents.Put | lesson_03/documentstore/documentstore.go:24-40 | a nil document panics and stores nothing; a document without a valid key is silently ignored; otherwise that document pointer is stored under its key |
| Lesson03Store.Documents.Get | lesson_03/documentstore/documentstore.go:42-49 | found iff the key is present, returning the stored pointer itself, else nil |
| Lesson03Store.Documents.Delete | lesson_03/documentstore/documentstore.go:51-55 | reports whether the key was present and removes it |
| Lesson03Store.Documents.List | lesson_03/documentstore/documentstore.go:57-63 | returns each stored document pointer exactly once |
| Lesson03Store.PutThenGet | lesson_03/documentstore/documentstore.go:24-49 | a second Put under the same key replaces the first, and Get returns the second document |
| Lesson05Users.UserValue | lesson_05/users/user.go:14-17 | a User is a struct of two exported string fields, a value that survives a round trip |
| Lesson05Users.UserOf | lesson_05/users/user.go:14-17 | every value of type User is the value of a user |
| Lesson05Users.MarshalUser | lesson_05/users/user.go:48-51 | marshalling `&newUser` succeeds with the document holding "ID" and "Name" as string fields |
| Lesson05Users.UnmarshalUser | lesson_05/users/user.go:77-81 | unmarshalling a user's document into a zero User restores that user without error |
| Lesson05Users.New | lesson_05/users/user.go:23-36 | New succeeds with a service over an empty "users" collection keyed by "ID" |
| Lesson05Users.Service.CreateUser | lesson_05/users/user.go:38-55 | an existing id fails with "user already exist" and nothing changes; a fresh id returns User{id, name} and the collection gains exactly that document under that key |
| Lesson05Users.Service.GetUser | lesson_05/users/user.go:72-83 | an absent id fails with "user not found"; a present one returns the stored user |
| Lesson05Users.Service.DeleteUser | lesson_05/users/user.go:85-91 | fails with "user not found" iff the id is absent; afterwards that user, and only that one, is gone |
| Lesson05Users.DecodeUser | lesson_05/users/user.go:61-66 | a zero User filled from a stored user's document is that user; the error return cannot be taken |
| Lesson05Users.DecodeUsers | lesson_05/users/user.go:59-67 | the loop over the listed documents yields exactly the users they were made from, in the same order |
| Lesson05Users.Service.ListUsers | lesson_05/users/user.go:57-70 | returns one user per stored document, each stored user once |
| Lesson05Users.CreateThenGet | lesson_05/users/user.go:44-82 | after CreateUser(id, name), GetUser(id) returns User{id, name} |
| Lesson05Users.CreateTwiceDeleteThenGet | lesson_05/users/user.go:38-91 | a second CreateUser of the same id fails, DeleteUser succeeds, and GetUser then fails with "user not found" |
| Lesson02RuneStack.RuneStack.constructor | lesson_02/rune_stack.go:7-9 | NewRuneStack is empty |
| Lesson02RuneStack.RuneStack.IsEmpty | lesson_02/rune_stack.go:11-13 | true iff the stack has no elements |
| Lesson02RuneStack.RuneStack.Push | lesson_02/rune_stack.go:15-17 | puts the rune on top, grows the stack by one and leaves the rest unchanged |
| Lesson02RuneStack.RuneStack.Pop | lesson_02/rune_stack.go:19-27 | on an empty stack returns (0, false) and changes nothing; otherwise returns the top with true and removes only it |
| Lesson02RuneStack.PushThenPop | lesson_02/rune_stack.go:15-27 | Push(r) then Pop() returns (r, true) and restores the previous contents |
| Lesson02RuneStack.NewIsEmpty | lesson_02/rune_stack.go:7-23 | a new stack is empty, a Pop on it fails, and it stays empty |
| Lesson02Exercises.FibonacciRecursive | lesson_02/main.go:20-25 | returns n for n < 2, negative n included, and is non-negative from 0 on and positive from 1 on |
| Lesson02Exercises.FibonacciMonotone | lesson_02/main.go:20-25 | the sequence never decreases from index 1 on |
| Lesson02Exercises.FibonacciIterative | lesson_02/main.go:9-18 | equals FibonacciRecursive for every n |
| Lesson02Exercises.IsPrime | lesson_02/main.go:27-40 | true iff n >= 2 and no d with 2 <= d < n divides n |
| Lesson02Exercises.CofactorBelow | lesson_02/main.go:34 | checking divisors up to the square root is enough: a larger divisor has a smaller cofactor that divides n too |
| Lesson02Exercises.BinaryDigits | lesson_02/main.go:43 | the base-2 digits of a natural number: only '0'/'1', no leading zero, last digit its parity |
| Lesson02Exercises.FormatBinary | lesson_02/main.go:43 | strconv.FormatInt(n, 2): for n >= 0 only '0'/'1' digits, "0" exactly for zero and a leading '1' otherwise; for n < 0 a minus sign followed by such digits with a leading '1' |
| Lesson02Exercises.FormatBinaryValue | lesson_02/main.go:43 | the digits FormatBinary writes, read back in base 2, are the absolute value of n |
| Lesson02Exercises.Reverse | lesson_02/main.go:44-52 | the reverse of a string: same length, k-th character is the k-th from the end |
| Lesson02Exercises.IsBinaryPalindrome | lesson_02/main.go:42-53 | true iff the base-2 string of n equals its reverse |
| Lesson02Exercises.NegativeNeverPalindrome | lesson_02/main.go:43-53 | a negative number is never a binary palindrome |
| Lesson02Exercises.PositivePalindromeIsOdd | lesson_02/main.go:43-53 | a positive binary palindrome is odd |
| Lesson02Exercises.Closer | lesson_02/main.go:55-59 | openClosedParentheses maps each opener to its closer, and a missing key to the zero rune |
| Lesson02Exercises.Brackets | lesson_02/main.go:70-86 | keeps only bracket characters, the only characters the scan acts on |
| Lesson02Exercises.RunConcat | lesson_02/main.go:70-86 | scanning a concatenation is scanning the first part and then the second from the stack it left |
| Lesson02Exercises.RunIgnoresOthers | lesson_02/main.go:70-86 | characters other than brackets do not affect the scan |
| Lesson02Exercises.FlattenRuns | lesson_02/main.go:70-86 | a properly nested bracket sequence scans from any stack back to that stack |
| Lesson02Exercises.RunClosesStack | lesson_02/main.go:70-86 | a bracket string that scans to the empty stack closes each opener on the stack in turn, with properly nested stretches between |
| Lesson02Exercises.ValidIffBalanced | lesson_02/main.go:61-88 | the scan ends on the empty stack iff the brackets form a properly nested sequence, in both directions |
| Lesson02Exercises.EarlyReject | lesson_02/main.go:75-84 | a closer meeting an empty stack or a different opener makes the string invalid whatever follows it |
| Lesson02Exercises.ValidParentheses | lesson_02/main.go:61-88 | true iff the bracket characters of s are properly nested; other characters are ignored |
| Lesson02Exercises.ParseBinary32 | lesson_02/main.go:91 | strconv.ParseInt(s, 2, 32): any value it yields is in the 32-bit range, and an empty string is rejected |
| Lesson02Exercises.Increment | lesson_02/main.go:90-96 | a non-zero result is the parsed value plus one |
| Lesson02Exercises.BinaryDigitsValue | lesson_02/main.go:91 | reading the base-2 digits of n back gives n |
| Lesson02Exercises.LeadingZeros | lesson_02/main.go:91 | leading zeros do not change a base-2 value |
| Lesson02Exercises.ParseFormatRoundTrip | lesson_02/main.go:43-91 | parsing the FormatInt base-2 string of any 32-bit number gives that number back |
| Lesson02Exercises.IncrementFormatted | lesson_02/main.go:90-96 | incrementing the base-2 string of any 32-bit number gives the next number |
| Lesson02Exercises.IncrementDigits | lesson_02/main.go:90-96 | a digit string whose value is at most 2^31-1 increments to its value plus one |
| Lesson02Exercises.IncrementLeadingZeros | lesson_02/main.go:90-96 | leading zeros before the digits of n still give n + 1 |
| Lesson02Exercises.IncrementOutOfRange | lesson_02/main.go:91-94 | a digit string whose value exceeds 2^31-1 gives 0 |
| Lesson02Exercises.IncrementRejectsSyntax | lesson_02/main.go:91-94 | the empty string, a bare sign, or any other character after the optional sign gives 0 |

## Left out

- **Reflection.** It is replaced by the closed `GoValue` universe. Named types, methods, struct tags and interface values other than the payload cases above are not represented.
- **`CanSet`.** `lesson_07/internal/documentstore/document.go:169-171` is not modelled: exported fields reached through a pointer are always settable.
- **Numbers.** Every Go numeric kind is one `number` kind holding a mathematical integer:
  - floats, unsigned kinds and bit widths are not distinguished;
  - `reflect.Value.Convert` is the identity, so its truncation and wrap-around are not modelled;
  - `ConvertibleTo` fails only for non-numeric payloads under a `number` tag.
- **Aliasing.**
  - Unmarshal is modelled on values, not on memory, so sharing between pointers and writes through aliases are not captured.
  - In lessons 05–07, `Get` returns a copy of the stored document rather than the shared `*Document`. Lesson 03's `Get` does return the stored object, whose identity is modelled with a class.
- **Nil and empty slices.** A nil slice and an empty slice are not distinguished.
- **RoundTrip.RoundTripValue** holds in Go only up to nil versus empty slices. Unmarshalling an array field always builds a new slice with `reflect.MakeSlice` (`lesson_07/internal/documentstore/document.go:237`), so a nil slice member comes back as an empty non-nil slice, which `reflect.DeepEqual` tells apart. The model has one value for both.
- **RoundTrip.RoundTripDocument** holds in Go only up to nil versus empty slices, for the same reason.
- **RoundTrip.RoundTripIntoZero** holds in Go only up to nil versus empty slices, for the same reason.
- **Lesson07Collection.Collection.Put** stores `&doc` (`lesson_07/internal/documentstore/collection.go:39`), a shallow copy whose `Fields` map is shared with the caller's document. The model stores the fields as they are at the call, so later writes through the caller's map, which Go's stored document would see, are not captured.
- **Lesson05Collection.Collection.Put** stores `&doc` in the same way (`lesson_05/documentstore/collection.go:28`), with the same sharing left out.
- **Gob codec.** The bytes `Dump` produces and `NewStoreFromDump` reads (`lesson_06/documentstore/store.go:77-85, 93-100`) come from `encoding/gob`. The codec is a function parameter (`encode`/`decode`), and only the guards and the way results and errors are passed on are modelled.
- **Filesystem.** `DumpToFile` and `NewStoreFromFile` (`lesson_06/documentstore/store.go:108-113, 126-159`) use `MkdirAll`, `CreateTemp`, `Sync` and `Rename`. These are parameters: `DumpToFile` takes one `writeFile` step and `NewStoreFromFile` one `readFile` step. Atomicity and the temporary-file clean-up are not modelled.
- **Logging.** The `logger` calls in lesson 06 and 07 are side effects only. The logger's package is not part of this model.
- **Map iteration order.** `List` returns documents in an unspecified order; the ghost `keys` sequence names the order the model picked.
- **Pointer receivers.** A nil collection or nil store receiver, which would panic in Go, is not modelled.
- **Missing files.**
  - lesson_04's and lesson_06's `collection.go` are not part of this model. The lesson 04 store uses the lesson 05 collection, and the lesson 06 store uses the lesson 07 collection, which has the same fields.
  - lesson_05's `document.go` is not part of this model. Lesson 05's users service uses the lesson 07 marshal engine, which its tests exercise with the same API.
  - lesson_07's `store.go` is not part of this model.
- **lesson 05 error constant.** `ErrConfigNotFound` is used by `lesson_05/documentstore/collection.go:21` but is not declared in `lesson_05/documentstore/errors.go`. The model uses the lesson 07 declaration.
- **The users service.** `Lesson05Users.Service.CreateUser` ignores Put's result, as the code does. The users collection is always keyed by "ID", so Put cannot fail there. The unreachable `MarshalDocument` error return of `CreateUser`, the `UnmarshalDocument` error returns of `GetUser` and `ListUsers` (shared in `DecodeUser`), and `New`'s `CreateCollection` error return, are proved dead.
- **Go `int` overflow.**
  - Integers are unbounded, so Fibonacci values past 2^63 do not wrap.
  - `Increment` adds one to a 32-bit value, which cannot overflow Go's 64-bit `int`.
  - `ParseInt`'s uint64 overflow check is subsumed by the 32-bit range check.
- **Runes.** `math.Sqrt` in `IsPrime` (`lesson_02/main.go:34`) is modelled as the loop bound `i * i <= n`. Strings are sequences of runes, so `range s` decoding UTF-8 is not modelled.
- **Lesson02RuneStack.RuneStack.Push** takes a Dafny `char`. A Go `rune` is an `int32`, so the negative values and surrogate code points Go lets a caller push (`lesson_02/rune_stack.go:15`) are not modelled.
- **Lesson02RuneStack.RuneStack.Pop** returns a Dafny `char`, for the same reason.
- **Demo drivers and tests.**
  - The `main.go` files of lessons 02–06 only print sample data.
  - The test files are used as statements of intended behaviour, not modelled.
- **Unmarshal.UnmarshalScalar**: states the "cannot convert" error only for non-numeric payloads under a `number` tag, because all numeric kinds are one kind here.
- **Lesson02Exercises.Increment**: its own contract states only the non-zero case. The zero cases (syntax errors, out of range) are the lemmas `IncrementRejectsSyntax` and `IncrementOutOfRange`.

## Notes on the code as written

- **Typed nil document.** A nil pointer field is marshalled as an object holding a typed nil `*Document`. Unmarshalling that field allocates the pointer and then fails with "doc is nil", because the `df.Value == nil` test at `lesson_07/internal/documentstore/document.go:268` does not catch a typed nil. The model follows the code. `RoundTrip.NilStructPointerAllocatedThenFails` and `RoundTrip.NilPointerMemberBreaksRoundTrip` state the consequence.
- **`ParseInt` sign.** `strconv.ParseInt` accepts a leading `+` or `-` sign, so `Increment("-1")` is 0 and `Increment("+1")` is 2. The model includes the sign.
