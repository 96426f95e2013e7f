# jsoncons core: ordered JSON objects, integer printing, output handlers, schema errors

This project models four sequential pieces of the jsoncons C++ library in Dafny and proves what they promise.

1. **The insertion-ordered JSON object (`ojson` in object form).**
   - `OjsonMembers` specifies the object on values, as a sequence of key/value members. Its `Content` is the key-to-value map a reader sees. The first member with a key is the one that counts.
   - `OjsonObject.OrderedObject` is a class over that sequence. It models these operations, each as a method proved equal to the matching `OjsonMembers` function:
     - `try_emplace` and `insert_or_assign`, with and without a hint
     - `insert(first, last)`
     - `erase(pos)` and `erase(first, last)`
     - `merge` and `merge_or_update`, with or without a position hint, from a copied or a moved source
   - `OjsonObjectTests` replays the test cases of `test/corelib/src/ojson_object_tests.cpp` on the class. Each test's CHECKs become the postcondition of a method.
2. **`print_integer` and `print_uinteger`** (`IntegerPrinting`). Each fills a 255-slot character buffer with digits, least significant first, in a do-while loop. It then walks the buffer backwards and puts each character to a writer. The writer is the text it has received so far. The methods are proved to emit `Decimal(value)`, or `IntegerText(value)` for signed values, and the lemmas state what that text is.
3. **The output-handler forwarding layer** (`OutputHandler`).
   - `basic_json_output_handler` turns each public call, the deprecated overloads included, into exactly one private `do_*` event (`Forward`).
   - `basic_null_json_output_handler` ignores every event.
4. **The JSON Schema error values** (`JsonSchemaError`): `schema_error` and `validation_error`, with their constructors, accessors and `what()` text.

`Numerics` holds the fixed-width integer types as ranges of `int`. `CStrings` reads a character sequence as C code reads a `const char*`, up to its first NUL.

## Model

| member | source | states |
|---|---|---|
| IntegerPrinting.DigitChar | include/jsoncons/json_output_handler.hpp:29-29 | the character stored for digit value d is one of '0'..'9' and its code minus 48 is d |
| IntegerPrinting.WrappingNegate | include/jsoncons/json_output_handler.hpp:25-25 | the two's-complement negation of an int64 is congruent to minus the value modulo 2^64, so INT64_MIN maps to itself |
| IntegerPrinting.ToUnsigned | include/jsoncons/json_output_handler.hpp:25-25 | the int64-to-uint64 cast keeps the value modulo 2^64 |
| IntegerPrinting.Magnitude | include/jsoncons/json_output_handler.hpp:25-25 | the unsigned magnitude is exactly |value| for every int64; for INT64_MIN the wrapped negation cast to unsigned gives 2^63 |
| IntegerPrinting.FillDigits | include/jsoncons/json_output_handler.hpp:26-31 | the do-while stores at most 20 characters, and they are the decimal text of the value, least significant digit first |
| IntegerPrinting.DigitStep | include/jsoncons/json_output_handler.hpp:27-31 | one turn of the do-while (store u%10, divide by 10) keeps the text split into the digits still to write plus the reversed digits written; the loop stops exactly when u/10 is 0 |
| IntegerPrinting.PutBackwards | include/jsoncons/json_output_handler.hpp:36-39 | the backwards walk appends the buffer's first p characters to the writer in reverse order |
| IntegerPrinting.PrintUInteger | include/jsoncons/json_output_handler.hpp:42-57 | the writer receives exactly the decimal text of the value after what it already held |
| IntegerPrinting.PrintInteger | include/jsoncons/json_output_handler.hpp:19-40 | the writer receives '-' for a negative value and then the decimal digits of its magnitude, and nothing else |
| IntegerPrinting.Decimal | include/jsoncons/json_output_handler.hpp:42-57 | the text print_uinteger writes for a value; its properties are DecimalRoundTrip, DecimalDigits, NoLeadingZero and DecimalLength |
| IntegerPrinting.IntegerText | include/jsoncons/json_output_handler.hpp:19-40 | the text print_integer writes is non-empty and starts with '-' exactly when the value is negative |
| IntegerPrinting.DecimalRoundTrip | include/jsoncons/json_output_handler.hpp:42-57 | reading the printed digits back gives the value |
| IntegerPrinting.DecimalDigits | include/jsoncons/json_output_handler.hpp:49-52 | every printed character is a decimal digit |
| IntegerPrinting.NoLeadingZero | include/jsoncons/json_output_handler.hpp:49-52 | zero prints as the single digit "0" (the do-while runs once), and the text starts with '0' only for zero |
| IntegerPrinting.DecimalLength | include/jsoncons/json_output_handler.hpp:49-52 | a value below 10^k prints in at most k digits |
| IntegerPrinting.UInt64Digits | include/jsoncons/json_output_handler.hpp:47-52 | every 64-bit magnitude prints in at most 20 digits, so the 255-slot buffer never overflows |
| IntegerPrinting.LeadingDigitPositive | include/jsoncons/json_output_handler.hpp:49-52 | a digit string not starting with '0' has a positive value |
| IntegerPrinting.DecimalCanonical | include/jsoncons/json_output_handler.hpp:49-56 | every digit string without a leading zero (or "0") is the printed text of its own value: the printed texts are exactly the canonical digit strings |
| IntegerPrinting.IntegerTextRoundTrip | include/jsoncons/json_output_handler.hpp:32-39 | the signed text is non-empty, starts with '-' if and only if the value is negative, and parses back to the value |
| IntegerPrinting.IntegerTextInjective | include/jsoncons/json_output_handler.hpp:19-40 | distinct values print as distinct texts |
| IntegerPrinting.ReverseReverse | include/jsoncons/json_output_handler.hpp:36-39 | putting the buffer backwards undoes storing the digits least significant first |
| IntegerPrinting.ReverseCons | include/jsoncons/json_output_handler.hpp:36-39 | each step of the backwards walk puts the next-lower slot after the ones already put |
| IntegerPrinting.ReverseSnoc | include/jsoncons/json_output_handler.hpp:29-29 | storing one more digit at the end of the buffer puts it first in the reversed text |
| CStrings.BeforeNul | include/jsoncons/json_output_handler.hpp:169-172 | the string view of a C string is the prefix before its first NUL, holds no NUL, and the NUL follows it |
| CStrings.AsCString | include/jsoncons_ext/jsonschema/jsonschema_error.hpp:94-97 | reading s.c_str() gives a NUL-free prefix of s that stops at the end of s or at a NUL, and all of s when s holds no NUL |
| CStrings.ReadingIsUnique | include/jsoncons_ext/jsonschema/jsonschema_error.hpp:94-97 | that description fixes the string read: any NUL-free prefix that stops at the end or at a NUL is the reading |
| CStrings.AsCStringConcat | include/jsoncons_ext/jsonschema/jsonschema_error.hpp:48-50 | reading a C string from a + b stops inside a when a holds a NUL, and otherwise takes all of a and goes on into b |
| OutputHandler.Canonical | include/jsoncons/json_output_handler.hpp:152-217 | every deprecated overload or short double_value form names one of the canonical public calls |
| OutputHandler.AsCall | include/jsoncons/json_output_handler.hpp:72-150 | each do_* event is produced by a canonical public call |
| OutputHandler.Forward | include/jsoncons/json_output_handler.hpp:72-217 | each public call, a deprecated overload or short form included, makes the do_* call of the canonical public call it stands for |
| OutputHandler.ForwardAgreesWithCanonical | include/jsoncons/json_output_handler.hpp:72-217 | each public call, deprecated overloads included, makes the same do_* call as the canonical call it stands for, and that canonical call is recovered from the event |
| OutputHandler.EventsMatchCanonicalCalls | include/jsoncons/json_output_handler.hpp:72-150 | the canonical public calls and the do_* events correspond one to one: forwarding then recovering, and recovering then forwarding, give back what was started with |
| OutputHandler.SameEventIffSameCanonical | include/jsoncons/json_output_handler.hpp:72-217 | two calls make the same do_* call if and only if they stand for the same canonical call |
| OutputHandler.DoubleDefaults | include/jsoncons/json_output_handler.hpp:127-140 | double_value(v) sends precision 0 and decimal places 0, double_value(v, p) sends decimal places 0, and the deprecated value(double, ...) uses the same defaults |
| OutputHandler.ForwardAll | include/jsoncons/json_output_handler.hpp:72-150 | a call sequence makes one do_* event per call, in order |
| OutputHandler.Receive | include/jsoncons/json_output_handler.hpp:251-314 | a do_* event leaves the null handler a null handler, and a recording handler keeps all it had and adds the event last |
| OutputHandler.HandleAll | include/jsoncons/json_output_handler.hpp:72-150 | a sequence of calls leaves the null handler a null handler and gives a recording handler exactly one more event per call |
| OutputHandler.RecordingGetsEveryEvent | include/jsoncons/json_output_handler.hpp:72-150 | a handler that keeps what its do_* overrides receive ends up with its events followed by exactly one event per call, in call order |
| OutputHandler.NullIgnoresEverything | include/jsoncons/json_output_handler.hpp:251-314 | the null handler is unchanged by any sequence of calls |
| JsonSchemaError.NewSchemaError | include/jsoncons_ext/jsonschema/jsonschema_error.hpp:16-28 | the error keeps the message it was built with, and what() returns all of it when it holds no NUL |
| JsonSchemaError.SchemaError.What | include/jsoncons_ext/jsonschema/jsonschema_error.hpp:24-27 | what() returns the runtime_error text as a C string: the NUL-free prefix of the message that ends at the message's end or at its first NUL |
| JsonSchemaError.NewValidationError | include/jsoncons_ext/jsonschema/jsonschema_error.hpp:39-51 | the accessors return the four arguments, there are no nested errors, the stored text is the location, ": " and the message, and what() returns all of it when neither part holds a NUL |
| JsonSchemaError.NewValidationErrorWithNested | include/jsoncons_ext/jsonschema/jsonschema_error.hpp:53-67 | the accessors return the arguments, the nested errors are the vector passed, element for element, the stored text is the location, ": " and the message, and what() returns all of it when neither part holds a NUL |
| JsonSchemaError.ConstructorsAgree | include/jsoncons_ext/jsonschema/jsonschema_error.hpp:39-67 | the five-argument constructor with an empty vector builds the same error as the four-argument one |
| JsonSchemaError.WhatIgnoresKeywordAndNested | include/jsoncons_ext/jsonschema/jsonschema_error.hpp:94-97 | what() of a constructed error depends only on its location and message |
| JsonSchemaError.ValidationError.What | include/jsoncons_ext/jsonschema/jsonschema_error.hpp:94-97 | what() returns what_.c_str() as a caller reads it: the NUL-free prefix of the stored text ending at its end or at its first NUL, which for a constructed error without NULs is the location, ": " and the message |
| JsonSchemaError.WhatAsCString | include/jsoncons_ext/jsonschema/jsonschema_error.hpp:94-97 | for every constructed error, what() reads the location up to its first NUL if it has one, and otherwise the location, ": " and the message up to its first NUL |
| JsonSchemaError.TextAsCString | include/jsoncons_ext/jsonschema/jsonschema_error.hpp:48-50 | the text appended from a location, a NUL-free separator and a message reads as the location cut at its first NUL, or otherwise as the location, the separator and the message cut at its first NUL |
| JsonSchemaError.WhatText | include/jsoncons_ext/jsonschema/jsonschema_error.hpp:48-50 | the what() text built by both constructors (lines 48-50 and 64-66) has the location, then ": " at the location's length, then the message |
| JsonSchemaError.WhatSplits | include/jsoncons_ext/jsonschema/jsonschema_error.hpp:48-50 | the stored what_ text is the location, then ": ", then the message, each at its own offsets, so both parts can be read back |
| JsonSchemaError.NestedWhat | include/jsoncons_ext/jsonschema/jsonschema_error.hpp:53-67 | every error nested at any depth inside a constructed error is constructed, with a consistent what_ text |
| OjsonMembers.IndexOf | test/corelib/src/ojson_object_tests.cpp:77-79 | find returns the position of the first member with the key, or the end position exactly when the key is absent |
| OjsonMembers.KeyOrder | test/corelib/src/ojson_object_tests.cpp:29-36 | the key order has one key per member, in member order |
| OjsonMembers.Content | test/corelib/src/ojson_object_tests.cpp:43-51 | the keys an object binds are exactly the keys of its members |
| OjsonMembers.EmplaceAt | test/corelib/src/ojson_object_tests.cpp:175-175 | a hinted insertion leaves the hint within the object |
| OjsonMembers.AssignAt | test/corelib/src/ojson_object_tests.cpp:268-268 | a hinted insert_or_assign leaves the hint within the object |
| OjsonMembers.Emplace | test/corelib/src/ojson_object_tests.cpp:60-62 | try_emplace binds the key if it was unbound, keeps every earlier member in place, and adds a member only for a new key |
| OjsonMembers.InsertAll | test/corelib/src/ojson_object_tests.cpp:24-25 | insert(first, last) keeps every earlier member in place, binds the union of both key sets, and adds at most one member per source member |
| OjsonMembers.Fresh | test/corelib/src/ojson_object_tests.cpp:24-36 | the members a bulk insertion appends are exactly the source keys not yet seen, at most one per source member |
| OjsonMembers.InsertAllAt | test/corelib/src/ojson_object_tests.cpp:175-175 | a hinted merge keeps the members before the hint in place and binds the union of both key sets |
| OjsonMembers.Assign | test/corelib/src/ojson_object_tests.cpp:255-255 | insert_or_assign binds the key, keeps every earlier member's key, and adds a member only for a new key |
| OjsonMembers.AssignAll | test/corelib/src/ojson_object_tests.cpp:255-255 | merge_or_update binds the union of both key sets |
| OjsonMembers.AssignAllAt | test/corelib/src/ojson_object_tests.cpp:268-268 | a hinted merge_or_update binds the union of both key sets |
| OjsonMembers.EraseRange | test/corelib/src/ojson_object_tests.cpp:95-95 | erase(first, last) removes exactly the members in the range and keeps the others in order |
| OjsonMembers.Without | test/corelib/src/ojson_object_tests.cpp:64-75 | erasing by key drops exactly the doomed keys and no member is added |
| OjsonMembers.UniqueKeysCount | test/corelib/src/ojson_object_tests.cpp:77-77 | in an object with unique keys, size() is the number of bound keys |
| OjsonMembers.KeyAt | test/corelib/src/ojson_object_tests.cpp:64-75 | every member's key is a key of the object |
| OjsonMembers.ContentConcat | test/corelib/src/ojson_object_tests.cpp:24-25 | in a concatenation, a key of the first part shadows the same key in the second |
| OjsonMembers.SingleContent | test/corelib/src/ojson_object_tests.cpp:60-62 | a one-member object binds its key to its value |
| OjsonMembers.ContentFirst | test/corelib/src/ojson_object_tests.cpp:48-51 | a key is bound to the value of its first member (later duplicates are ignored) |
| OjsonMembers.ContentAt | test/corelib/src/ojson_object_tests.cpp:78-79 | in an object with unique keys, each member's key is bound to that member's value |
| OjsonMembers.ContentSplice | test/corelib/src/ojson_object_tests.cpp:175-175 | a member placed after members lacking its key is bound over whatever follows it |
| OjsonMembers.ContentInsertNew | test/corelib/src/ojson_object_tests.cpp:175-175 | inserting a new key at any position adds exactly that binding |
| OjsonMembers.ContentReplaceFirst | test/corelib/src/ojson_object_tests.cpp:255-256 | overwriting the value of an existing key rebinds exactly that key and keeps the key set |
| OjsonMembers.InsertedAt | test/corelib/src/ojson_object_tests.cpp:175-175 | the element at each position after inserting a member at pos |
| OjsonMembers.InsertKeepsUnique | test/corelib/src/ojson_object_tests.cpp:175-175 | inserting a new key anywhere keeps the keys unique |
| OjsonMembers.TailUnique | test/corelib/src/ojson_object_tests.cpp:64-75 | the tail of an object is an object lacking the head's key |
| OjsonMembers.AppendContent | test/corelib/src/ojson_object_tests.cpp:60-62 | appending a member binds its key only when the key is new |
| OjsonMembers.AppendKeepsUnique | test/corelib/src/ojson_object_tests.cpp:60-62 | appending a new key keeps the keys unique |
| OjsonMembers.EmplaceContent | test/corelib/src/ojson_object_tests.cpp:60-62 | try_emplace binds the key to the value unless the key is already bound, in which case nothing changes |
| OjsonMembers.EmplaceAtAgrees | test/corelib/src/ojson_object_tests.cpp:175-176 | a hinted try_emplace binds the same as an unhinted one, and both keep keys unique |
| OjsonMembers.AssignAtAgrees | test/corelib/src/ojson_object_tests.cpp:255-269 | insert_or_assign, hinted or not, binds the key to the new value and leaves every other binding alone |
| OjsonMembers.AssignKeepsUnique | test/corelib/src/ojson_object_tests.cpp:255-269 | insert_or_assign, hinted or not, keeps the keys unique |
| OjsonMembers.InsertAllContent | test/corelib/src/ojson_object_tests.cpp:166-167 | merge keeps every binding of the target and adds the source's bindings for keys the target lacks |
| OjsonMembers.InsertAllKeepsUnique | test/corelib/src/ojson_object_tests.cpp:40-51 | bulk insertion into an object never adds a key twice |
| OjsonMembers.InsertAllAppendsFresh | test/corelib/src/ojson_object_tests.cpp:24-36 | bulk insertion appends, in source order, exactly the source members whose key is new and not repeated earlier in the source |
| OjsonMembers.InsertAllAtContent | test/corelib/src/ojson_object_tests.cpp:175-176 | a hinted merge binds the same keys to the same values as a plain one and keeps keys unique |
| OjsonMembers.AssignAllContent | test/corelib/src/ojson_object_tests.cpp:255-255 | merge_or_update binds every source key to the source's value and keeps the target's other bindings |
| OjsonMembers.AssignAllAtContent | test/corelib/src/ojson_object_tests.cpp:268-269 | a hinted merge_or_update binds the same as a plain one |
| OjsonMembers.EraseRangeContent | test/corelib/src/ojson_object_tests.cpp:95-95 | erase(first, last) removes exactly the keys of the erased members, keeps keys unique and shortens the object by last - first |
| OjsonMembers.ErasedKeysDisjoint | test/corelib/src/ojson_object_tests.cpp:95-95 | in an object, the keys of an erased slice occur nowhere outside it |
| OjsonMembers.EraseKeepsUnique | test/corelib/src/ojson_object_tests.cpp:95-95 | erasing a slice keeps the keys unique |
| OjsonMembers.WithoutContent | test/corelib/src/ojson_object_tests.cpp:64-75 | dropping the members whose keys are doomed removes exactly those keys |
| OjsonMembers.WithoutKeepsUnique | test/corelib/src/ojson_object_tests.cpp:64-75 | dropping members keeps the keys unique |
| OjsonMembers.InsertAllDistinct | test/corelib/src/ojson_object_tests.cpp:24-36 | inserting members whose keys are all new keeps every member, in order |
| OjsonObject.OrderedObject.constructor | test/corelib/src/ojson_object_tests.cpp:58-58 | a new object is empty (not counted: constructor) |
| OjsonObject.OrderedObject.Find | test/corelib/src/ojson_object_tests.cpp:78-79 | find returns the first position holding the key, or the end position, and nothing before it holds the key |
| OjsonObject.OrderedObject.Size | test/corelib/src/ojson_object_tests.cpp:77-77 | size() of a valid object is the number of keys it binds |
| OjsonObject.OrderedObject.At | test/corelib/src/ojson_object_tests.cpp:78-79 | at(key) returns the bound value exactly when the key is bound; otherwise the not-found error |
| OjsonObject.OrderedObject.TryEmplace | test/corelib/src/ojson_object_tests.cpp:60-62 | the members become Emplace of the old members; inserted exactly when the key was absent; the returned position holds the key, and an existing member is left as it was (not counted: uses old) |
| OjsonObject.OrderedObject.TryEmplaceAt | test/corelib/src/ojson_object_tests.cpp:175-175 | the members and the advanced hint are EmplaceAt of the old members; inserted exactly when the key was absent (not counted: uses old) |
| OjsonObject.OrderedObject.InsertOrAssign | test/corelib/src/ojson_object_tests.cpp:255-256 | the members become Assign of the old members and keys stay unique (not counted: uses old) |
| OjsonObject.OrderedObject.InsertOrAssignAt | test/corelib/src/ojson_object_tests.cpp:268-268 | the members and the advanced hint are AssignAt of the old members (not counted: uses old) |
| OjsonObject.OrderedObject.InsertRange | test/corelib/src/ojson_object_tests.cpp:24-25 | the members become InsertAll of the old members and the range (not counted: uses old) |
| OjsonObject.OrderedObject.Erase | test/corelib/src/ojson_object_tests.cpp:69-69 | the member at pos is removed, the rest keep their order, and the returned iterator is the member that followed (not counted: uses old) |
| OjsonObject.OrderedObject.EraseRange | test/corelib/src/ojson_object_tests.cpp:95-95 | the members at first..last-1 are removed and the returned iterator is the member that followed them (not counted: uses old) |
| OjsonObject.OrderedObject.Merge | test/corelib/src/ojson_object_tests.cpp:166-166 | the members become InsertAll of the old members and the source's (not counted: uses old) |
| OjsonObject.OrderedObject.MergeAt | test/corelib/src/ojson_object_tests.cpp:175-175 | the members become InsertAllAt of the old members at the hint (not counted: uses old) |
| OjsonObject.OrderedObject.MergeMove | test/corelib/src/ojson_object_tests.cpp:208-208 | as Merge, and the moved-from source is left empty (not counted: uses old) |
| OjsonObject.OrderedObject.MergeMoveAt | test/corelib/src/ojson_object_tests.cpp:221-221 | as MergeAt, and the moved-from source is left empty (not counted: uses old) |
| OjsonObject.OrderedObject.MergeOrUpdate | test/corelib/src/ojson_object_tests.cpp:255-255 | the members become AssignAll of the old members and the source's (not counted: uses old) |
| OjsonObject.OrderedObject.MergeOrUpdateAt | test/corelib/src/ojson_object_tests.cpp:268-268 | the members become AssignAllAt of the old members at the hint (not counted: uses old) |
| OjsonObject.OrderedObject.MergeOrUpdateMove | test/corelib/src/ojson_object_tests.cpp:301-301 | as MergeOrUpdate, and the moved-from source is left empty (not counted: uses old) |
| OjsonObject.OrderedObject.MergeOrUpdateMoveAt | test/corelib/src/ojson_object_tests.cpp:314-314 | as MergeOrUpdateAt, and the moved-from source is left empty (not counted: uses old) |
| OjsonObjectTests.FromMembers | test/corelib/src/ojson_object_tests.cpp:42-48 | an object built from a member list is the bulk insertion of the list, and the list itself when its keys are unique |
| OjsonObjectTests.MergeInputs | test/corelib/src/ojson_object_tests.cpp:138-153 | the parsed merge fixtures are valid objects holding their text's members in order |
| OjsonObjectTests.MoveInputs | test/corelib/src/ojson_object_tests.cpp:184-196 | the parsed move-merge fixtures are valid objects holding their text's members in order |
| OjsonObjectTests.UpdateInputs | test/corelib/src/ojson_object_tests.cpp:232-244 | the parsed merge_or_update fixtures are valid objects holding their text's members in order |
| OjsonObjectTests.EraseMatching | test/corelib/src/ojson_object_tests.cpp:64-75 | the erase-while-iterating loop removes exactly the members whose key is doomed, keeping the others in order |
| OjsonObjectTests.EraseTwoFrom | test/corelib/src/ojson_object_tests.cpp:90-101 | the loop erases the two members starting at the key's position when the key is present, and nothing otherwise |
| OjsonObjectTests.ErasedKeyGone | test/corelib/src/ojson_object_tests.cpp:95-95 | after erasing two members from the key's position, the key is gone |
| OjsonObjectTests.InsertRangeTest | test/corelib/src/ojson_object_tests.cpp:16-38 | inserting the two maps in turn gives six members with keys d, e, f, a, b, c in that order |
| OjsonObjectTests.InsertTwice | test/corelib/src/ojson_object_tests.cpp:24-25 | inserting two ranges with all-distinct keys into an empty object keeps both, in order |
| OjsonObjectTests.InsertBoth | test/corelib/src/ojson_object_tests.cpp:24-25 | inserting m1 then m2 into a new object gives a valid object holding m1 followed by m2 |
| OjsonObjectTests.SixKeys | test/corelib/src/ojson_object_tests.cpp:29-36 | the inserted members are six, with keys d, e, f, a, b, c in that order |
| OjsonObjectTests.DistinctKeys | test/corelib/src/ojson_object_tests.cpp:20-23 | the keys of the two maps are distinct |
| OjsonObjectTests.ParseDuplicateNamesTest | test/corelib/src/ojson_object_tests.cpp:40-52 | an object with names first, second, third has size 3 and those values; with first repeated it has size 2 and the first value of first |
| OjsonObjectTests.DistinctNames | test/corelib/src/ojson_object_tests.cpp:42-46 | first, second and third are distinct and bind 1, 2 and 3 |
| OjsonObjectTests.RepeatedName | test/corelib/src/ojson_object_tests.cpp:48-51 | with first repeated, bulk insertion keeps two members and the first value |
| OjsonObjectTests.EmplaceABC | test/corelib/src/ojson_object_tests.cpp:60-62 | three try_emplace calls give the members a, b, c in order (not counted: fresh) |
| OjsonObjectTests.EmplaceCBA | test/corelib/src/ojson_object_tests.cpp:112-114 | three try_emplace calls give the members c, b, a in order (not counted: fresh) |
| OjsonObjectTests.EraseWithIteratorTest | test/corelib/src/ojson_object_tests.cpp:56-80 | after erasing a and c while iterating, the size is 1 and at("b") is 2 |
| OjsonObjectTests.EraseWithIterator2Test | test/corelib/src/ojson_object_tests.cpp:82-106 | after erasing two members from a, the size is 1 and at("c") is 3 |
| OjsonObjectTests.EraseWithIterator3Test | test/corelib/src/ojson_object_tests.cpp:108-132 | after erasing two members from c, the size is 1 and at("a") is 3 |
| OjsonObjectTests.MergeInputsContent | test/corelib/src/ojson_object_tests.cpp:155-167 | the merged bindings are a:1, b:2, c:3, d:4, e:6 |
| OjsonObjectTests.MergeTest | test/corelib/src/ojson_object_tests.cpp:155-168 | merge(source) gives the expected object a:1, b:2, c:3, d:4, e:6 |
| OjsonObjectTests.MergeAtTest | test/corelib/src/ojson_object_tests.cpp:170-177 | merge(begin+1, source) gives the same bindings as the expected object |
| OjsonObjectTests.MoveInputsContent | test/corelib/src/ojson_object_tests.cpp:182-222 | the source's keys are unique; merging keeps a:"1", merging-or-updating takes a:"2"; both keep d and add c |
| OjsonObjectTests.MergeMoveTest | test/corelib/src/ojson_object_tests.cpp:198-209 | merge(std::move(source)) keeps a's old value and adds c |
| OjsonObjectTests.MergeMoveAtTest | test/corelib/src/ojson_object_tests.cpp:211-222 | merge(begin, std::move(source)) gives the same bindings |
| OjsonObjectTests.UpdateInputsContent | test/corelib/src/ojson_object_tests.cpp:230-256 | updating a:1, b:2 with a:2, c:3 gives a:2, b:2, c:3 |
| OjsonObjectTests.MergeOrUpdateTest | test/corelib/src/ojson_object_tests.cpp:246-257 | merge_or_update(source) gives the expected a:2, b:2, c:3 |
| OjsonObjectTests.MergeOrUpdateAtTest | test/corelib/src/ojson_object_tests.cpp:259-270 | merge_or_update(begin+1, source) gives the same bindings |
| OjsonObjectTests.MergeOrUpdateMoveAtTest | test/corelib/src/ojson_object_tests.cpp:304-316 | merge_or_update(begin, std::move(source)) takes a:"2", keeps d and adds c |

## Left out

- The ojson object class itself is not part of this model. Only its tests are, so the behaviour of `OjsonMembers` and `OjsonObject.OrderedObject` comes from what the tests exercise. Hinted insertion follows an assumed rule: a new key goes just before the position hint, and the hint moves past it. The library's own hint bookkeeping is not modelled.
- OjsonObject.OrderedObject.MergeAt, OjsonObject.OrderedObject.MergeMoveAt, OjsonObject.OrderedObject.MergeOrUpdateAt, OjsonObject.OrderedObject.MergeOrUpdateMoveAt: the member order they produce comes from the assumed hint rule above. It differs from the member order of the expected texts at lines 176, 222, 269 and 315, which those CHECKs accept only if ojson `==` ignores member order. The model therefore proves equality of key-to-value content for these tests, not member order.
- Members are key/value pairs over a generic value type. The test documents use a small `Json` datatype with integers, strings and integer arrays. The insert test's `std::map<std::string,double>` values, 1, 2, 3 and 4, 5, 6 (lines 20-21), are modelled as integers. Nested JSON values, parsing and serialisation are not modelled.
- `ojson::parse` (lines 42, 48 and the merge fixtures) is modelled as bulk insertion of the parsed members in text order (`FromMembers`). That applies the same first-wins rule to duplicate names. The JSON text is not parsed.
- In the merge tests, `expected == doc` is modelled as equality of the key-to-value bindings (`Content`). This assumes that ojson `==` ignores member order; the comparison operator is not part of this model, and the member order after a merge is not claimed. The insert test's order CHECKs are claimed (`OjsonObjectTests.InsertRangeTest`).
- `operator[]` on a present key (lines 79, 105, 131) is the same lookup as `at()` and is modelled by `OjsonObject.OrderedObject.At`.
- A moved-from merge source is modelled as emptied. The C++ only leaves it in a valid but unspecified state.
- The first section of the merge_or_update move test (lines 291-302) has its CHECK commented out. Only the hinted section (lines 304-316) is modelled as a test, although `MergeOrUpdateMove` itself is modelled.
- The stateful-allocator merge test (lines 319-338) concerns allocator plumbing only and is not modelled.
- Iterators are positions in the member sequence. Out-of-range iterators are excluded by preconditions, as the library treats them as a programming error.
- The class methods' contracts use `old` and so state the new object state only relative to the old one. The content and uniqueness facts about each operation are the `OjsonMembers` lemmas.
- `OutputHandler`:
  - `double` values are an opaque 64-bit payload. Floating-point arithmetic is not involved.
  - `CharT` templating (`char`/`wchar_t`) is modelled as Dafny `char`.
  - Virtual dispatch is modelled as a closed set of handlers (`Sink`): one that records events and the null handler.
  - The streaming writer is modelled as the text it has received so far.
  - Whether a call sequence is properly nested (begin/end pairs) is not checked by the source and is not claimed.
- `OutputHandler.Forward`: `byte_string_value(data, length)` hands the pointer and length on unchanged. The model passes the first `length` bytes instead, since pointers are not modelled.
- `long` and `unsigned long` in the deprecated overloads are taken as 64-bit (LP64).
- `IntegerPrinting.Magnitude`: `-value` for the least 64-bit value overflows in C++. The model takes the two's-complement result (the value itself), which the cast then turns into 2^63. In C++ this negation is undefined behaviour; the model assumes two's-complement wrap-around, so the magnitude is 2^63.
- `JsonSchemaError`:
  - The exception class hierarchy (`std::runtime_error`, `json_exception`) is not modelled.
  - `noexcept` and the C-string lifetime of `what()` are not modelled.
- JsonSchemaError.NewSchemaError, JsonSchemaError.NewValidationError, JsonSchemaError.NewValidationErrorWithNested: both what() overrides return a `const char*`, which a caller reads up to its first NUL. So these constructors promise that what() is the whole message, or the location, ": " and the message, only when those hold no NUL. With a NUL, what() is the text cut at it (`JsonSchemaError.WhatAsCString`). The full text is promised of the stored string (`what`).
