/**
 * The error values of jsoncons_ext/jsonschema/jsonschema_error.hpp.
 *
 * `validation_error` is an immutable record: the location in the instance,
 * the message, the keyword, the absolute keyword location and the nested
 * errors, plus the `what()` text that both constructors build once by
 * appending the location, ": " and the message to an empty string.
 * `schema_error` carries only its message, which `what()` returns.
 *
 * Both `what()` overrides return a `const char*` into the stored string, so
 * a caller reads the text only up to its first NUL (`AsCString`).
 */
module JsonSchemaError {
  import opened CStrings

  datatype SchemaError = SchemaError(message: string)
  {
    /** `what()`: the message the error was built with, read as a C string. */
    function What(): (w: string)
      ensures |w| <= |message| && w == message[..|w|] && '\0' !in w
      ensures |w| < |message| ==> message[|w|] == '\0'
      ensures '\0' !in message ==> w == message
    {
      AsCString(message)
    }
  }

  /** `schema_error(message)`. */
  function NewSchemaError(message: string): (e: SchemaError)
    ensures e.message == message
    ensures '\0' !in message ==> e.What() == message
  {
    SchemaError(message)
  }

  datatype ValidationError = ValidationError(
    instanceLocation: string,
    message: string,
    keyword: string,
    absoluteKeywordLocation: string,
    nestedErrors: seq<ValidationError>,
    what: string)
  {
    /** `what()`: `what_.c_str()`, the text built at construction read as a C string. */
    function What(): (w: string)
      ensures |w| <= |what| && w == what[..|w|] && '\0' !in w
      ensures |w| < |what| ==> what[|w|] == '\0'
      ensures Constructed(this) && '\0' !in instanceLocation && '\0' !in message ==>
                w == instanceLocation + ": " + message
    {
      NulFreeSeparator(instanceLocation, message);
      AsCString(what)
    }
  }

  /** The three `what_.append` calls of both constructors, starting from the empty string. */
  function WhatText(instanceLocation: string, message: string): (t: string)
    ensures |t| == |instanceLocation| + 2 + |message|
    ensures t[..|instanceLocation|] == instanceLocation
    ensures t[|instanceLocation|..|instanceLocation| + 2] == ": "
    ensures t[|instanceLocation| + 2..] == message
  {
    [] + instanceLocation + ": " + message
  }

  /** The separator holds no NUL, so the built text has one only where the location or the message has. */
  lemma NulFreeSeparator(instanceLocation: string, message: string)
    ensures '\0' in instanceLocation + ": " + message <==> '\0' in instanceLocation || '\0' in message
  {
    var t := instanceLocation + ": " + message;
    if '\0' in t {
      var i :| 0 <= i < |t| && t[i] == '\0';
      if i >= |instanceLocation| + 2 {
        assert t[i] == message[i - |instanceLocation| - 2];
      }
    }
    if '\0' in instanceLocation {
      var i :| 0 <= i < |instanceLocation| && instanceLocation[i] == '\0';
      assert t[i] == '\0';
    }
    if '\0' in message {
      var i :| 0 <= i < |message| && message[i] == '\0';
      assert t[|instanceLocation| + 2 + i] == '\0';
    }
  }

  /**
   * What a caller reads from `what()` of a constructed error: the location
   * up to its first NUL if it holds one, and otherwise the location, ": "
   * and the message up to its first NUL.
   */
  lemma WhatAsCString(e: ValidationError)
    requires Constructed(e)
    ensures e.What() == if '\0' in e.instanceLocation then AsCString(e.instanceLocation)
                        else e.instanceLocation + ": " + AsCString(e.message)
  {
    TextAsCString(e.instanceLocation, ": ", e.message);
  }

  /**
   * The C-string reading of a location, a NUL-free separator and a message
   * written one after the other, as the constructors build the text.
   */
  lemma TextAsCString(loc: string, sep: string, msg: string)
    requires '\0' !in sep
    ensures AsCString(loc + sep + msg) == if '\0' in loc then AsCString(loc) else loc + sep + AsCString(msg)
  {
    var tail := sep + msg;
    assert loc + sep + msg == loc + tail;
    if '\0' in loc {
      AsCStringConcat(loc, tail);
    } else {
      var rest := AsCString(msg);
      assert AsCString(tail) == sep + rest by { AsCStringConcat(sep, msg); }
      assert AsCString(loc + tail) == loc + (sep + rest) by { AsCStringConcat(loc, tail); }
      assert loc + (sep + rest) == loc + sep + rest;
    }
  }

  /** Every error a constructor builds, and every error nested in one, has the `what()` text of its location and message. */
  predicate Constructed(e: ValidationError)
    decreases e
  {
    && e.what == e.instanceLocation + ": " + e.message
    && forall i :: 0 <= i < |e.nestedErrors| ==> Constructed(e.nestedErrors[i])
  }

  /** The four-argument constructor: no nested errors. */
  function NewValidationError(instanceLocation: string, message: string, keyword: string,
                              absoluteKeywordLocation: string): (e: ValidationError)
    ensures e.instanceLocation == instanceLocation && e.message == message
    ensures e.keyword == keyword && e.absoluteKeywordLocation == absoluteKeywordLocation
    ensures e.nestedErrors == []
    ensures e.what == instanceLocation + ": " + message
    ensures '\0' !in instanceLocation && '\0' !in message ==> e.What() == instanceLocation + ": " + message
    ensures Constructed(e)
  {
    ValidationError(instanceLocation, message, keyword, absoluteKeywordLocation, [],
                    WhatText(instanceLocation, message))
  }

  /** The five-argument constructor: the nested errors are a copy of the vector passed, in order. */
  function NewValidationErrorWithNested(instanceLocation: string, message: string, keyword: string,
                                        absoluteKeywordLocation: string,
                                        nestedErrors: seq<ValidationError>): (e: ValidationError)
    ensures e.instanceLocation == instanceLocation && e.message == message
    ensures e.keyword == keyword && e.absoluteKeywordLocation == absoluteKeywordLocation
    ensures |e.nestedErrors| == |nestedErrors|
    ensures forall i :: 0 <= i < |nestedErrors| ==> e.nestedErrors[i] == nestedErrors[i]
    ensures e.what == instanceLocation + ": " + message
    ensures '\0' !in instanceLocation && '\0' !in message ==> e.What() == instanceLocation + ": " + message
    ensures (forall i :: 0 <= i < |nestedErrors| ==> Constructed(nestedErrors[i])) ==> Constructed(e)
  {
    ValidationError(instanceLocation, message, keyword, absoluteKeywordLocation, nestedErrors,
                    WhatText(instanceLocation, message))
  }

  /** The two constructors agree when the vector passed is empty. */
  lemma ConstructorsAgree(instanceLocation: string, message: string, keyword: string,
                          absoluteKeywordLocation: string)
    ensures NewValidationErrorWithNested(instanceLocation, message, keyword, absoluteKeywordLocation, [])
         == NewValidationError(instanceLocation, message, keyword, absoluteKeywordLocation)
  {
  }

  /**
   * `what()` depends on the location and the message only: two constructed
   * errors with the same location and message report the same text,
   * whatever their keywords, keyword locations and nested errors.
   */
  lemma WhatIgnoresKeywordAndNested(e1: ValidationError, e2: ValidationError)
    requires Constructed(e1) && Constructed(e2)
    requires e1.instanceLocation == e2.instanceLocation && e1.message == e2.message
    ensures e1.What() == e2.What()
  {
  }

  /**
   * The stored `what_` text of a constructed error starts with the location,
   * continues with ": ", and ends with the message; both parts can be
   * read back from it given the length of either.
   */
  lemma WhatSplits(e: ValidationError)
    requires Constructed(e)
    ensures |e.what| == |e.instanceLocation| + 2 + |e.message|
    ensures e.what[..|e.instanceLocation|] == e.instanceLocation
    ensures e.what[|e.instanceLocation|..|e.instanceLocation| + 2] == ": "
    ensures e.what[|e.instanceLocation| + 2..] == e.message
  {
    var loc := e.instanceLocation;
    assert e.what == loc + (": " + e.message);
  }

  /** Every error inside a constructed error, at any depth, has its own consistent `what_` text. */
  lemma {:induction false} NestedWhat(e: ValidationError, path: seq<nat>)
    requires Constructed(e)
    requires PathIn(e, path)
    ensures At(e, path).what == At(e, path).instanceLocation + ": " + At(e, path).message
    ensures Constructed(At(e, path))
    decreases |path|
  {
    if path != [] {
      NestedWhat(e.nestedErrors[path[0]], path[1..]);
    }
  }

  /** `path` names a nested error: each step indexes the nested errors of the one before. */
  predicate PathIn(e: ValidationError, path: seq<nat>)
    decreases |path|
  {
    path == [] || (path[0] < |e.nestedErrors| && PathIn(e.nestedErrors[path[0]], path[1..]))
  }

  /** The nested error that `path` names. */
  function At(e: ValidationError, path: seq<nat>): ValidationError
    requires PathIn(e, path)
    decreases |path|
  {
    if path == [] then e else At(e.nestedErrors[path[0]], path[1..])
  }
}
