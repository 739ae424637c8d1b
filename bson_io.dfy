/**
 * The cursor the serializers work through: a reader with a position over a
 * token stream and a bookmark to return to, and an append-only writer.
 */
module BsonIO {
  import opened Wrappers
  import opened Bson

  /** A saved reader position. */
  datatype Bookmark = Bookmark(position: nat)

  /** A read call that returns nothing did what `spec` says: moved to its new position, or failed in place. */
  ghost predicate Stepped(r: Outcome<BsonError>, spec: Result<nat, BsonError>, before: nat, after: nat) {
    match spec
    case Success(q) => r == Pass && after == q
    case Failure(e) => r == Fail(e) && after == before
  }

  /** A read call that returns a value did what `spec` says. */
  ghost predicate Yielded<T>(r: Result<T, BsonError>, spec: Result<(T, nat), BsonError>, before: nat, after: nat) {
    match spec
    case Success(x) => r == Success(x.0) && after == x.1
    case Failure(e) => r == Failure(e) && after == before
  }

  /**
   * A decode that returned `r` and left the reader at `after` did what `spec`
   * says; after an exception the reader's position is left unspecified.
   */
  ghost predicate Delivered<T>(r: Result<T, BsonError>, spec: Result<(T, nat), BsonError>, after: nat) {
    match spec
    case Success(x) => r == Success(x.0) && after == x.1
    case Failure(e) => r == Failure(e)
  }

  class BsonReader {
    const tokens: seq<Token>
    var pos: nat

    constructor (ts: seq<Token>)
      ensures tokens == ts && pos == 0
    {
      tokens := ts;
      pos := 0;
    }

    method GetBookmark() returns (b: Bookmark)
      ensures b == Bookmark(pos)
    {
      b := Bookmark(pos);
    }

    /** Undoes every read since `b` was taken. */
    method ReturnToBookmark(b: Bookmark)
      modifies this
      ensures pos == b.position
    {
      pos := b.position;
    }

    method GetCurrentBsonType() returns (r: Result<BsonType, BsonError>)
      ensures r == TypeAt(tokens, pos)
    {
      r := TypeAt(tokens, pos);
    }

    /** Reports the type of the next element, or EndOfDocument; the name stays for ReadName. */
    method ReadBsonType() returns (r: Result<BsonType, BsonError>)
      ensures r == TypeAt(tokens, pos)
    {
      r := TypeAt(tokens, pos);
    }

    method Consume(expected: Token, call: string) returns (r: Outcome<BsonError>)
      modifies this
      ensures Stepped(r, ExpectAt(tokens, old(pos), expected, call), old(pos), pos)
    {
      var s := ExpectAt(tokens, pos, expected, call);
      if s.Success? {
        pos := s.value;
        r := Pass;
      } else {
        r := Fail(s.error);
      }
    }

    method ReadStartDocument() returns (r: Outcome<BsonError>)
      modifies this
      ensures Stepped(r, ExpectAt(tokens, old(pos), StartDocument, "ReadStartDocument"), old(pos), pos)
    {
      r := Consume(StartDocument, "ReadStartDocument");
    }

    method ReadEndDocument() returns (r: Outcome<BsonError>)
      modifies this
      ensures Stepped(r, ExpectAt(tokens, old(pos), EndDocument, "ReadEndDocument"), old(pos), pos)
    {
      r := Consume(EndDocument, "ReadEndDocument");
    }

    method ReadStartArray() returns (r: Outcome<BsonError>)
      modifies this
      ensures Stepped(r, ExpectAt(tokens, old(pos), StartArray, "ReadStartArray"), old(pos), pos)
    {
      r := Consume(StartArray, "ReadStartArray");
    }

    method ReadEndArray() returns (r: Outcome<BsonError>)
      modifies this
      ensures Stepped(r, ExpectAt(tokens, old(pos), EndArray, "ReadEndArray"), old(pos), pos)
    {
      r := Consume(EndArray, "ReadEndArray");
    }

    method ReadNull() returns (r: Outcome<BsonError>)
      modifies this
      ensures Stepped(r, ExpectAt(tokens, old(pos), Value(NullValue), "ReadNull"), old(pos), pos)
    {
      r := Consume(Value(NullValue), "ReadNull");
    }

    method ReadName() returns (r: Result<string, BsonError>)
      modifies this
      ensures Yielded(r, ReadNameAt(tokens, old(pos)), old(pos), pos)
    {
      var s := ReadNameAt(tokens, pos);
      if s.Success? {
        pos := s.value.1;
        r := Success(s.value.0);
      } else {
        r := Failure(s.error);
      }
    }

    method ReadDouble() returns (r: Result<Float64, BsonError>)
      modifies this
      ensures Yielded(r, ReadDoubleAt(tokens, old(pos)), old(pos), pos)
    {
      var s := ReadDoubleAt(tokens, pos);
      if s.Success? {
        pos := s.value.1;
        r := Success(s.value.0);
      } else {
        r := Failure(s.error);
      }
    }

    /** Passes over the value at the cursor, counting container depth token by token. */
    method SkipValue() returns (r: Outcome<BsonError>)
      modifies this
      ensures Stepped(r, SkipFrom(tokens, old(pos), 0), old(pos), pos)
    {
      var i, depth := pos, 0;
      while i < |tokens|
        invariant SkipFrom(tokens, i, depth) == SkipFrom(tokens, pos, 0)
        invariant i == pos || depth > 0
        decreases |tokens| - i
      {
        if depth == 0 && !StartsValue(tokens[i]) {
          return Fail(InvalidOperation("SkipValue", i));
        }
        var d := depth + DepthChange(tokens[i]);
        if d <= 0 {
          pos := i + 1;
          return Pass;
        }
        i, depth := i + 1, d;
      }
      r := Fail(EndOfStream(i));
    }

    /** Hands the reader to another serializer, which reads one value and leaves the cursor after it. */
    method DeserializeWith<T>(decode: (seq<Token>, nat) -> Result<(T, nat), BsonError>) returns (r: Result<T, BsonError>)
      modifies this
      ensures Yielded(r, decode(tokens, old(pos)), old(pos), pos)
    {
      var s := decode(tokens, pos);
      if s.Success? {
        pos := s.value.1;
        r := Success(s.value.0);
      } else {
        r := Failure(s.error);
      }
    }
  }

  class BsonWriter {
    var tokens: seq<Token>

    constructor ()
      ensures tokens == []
    {
      tokens := [];
    }

    method WriteStartDocument()
      modifies this
      ensures tokens == old(tokens) + [StartDocument]
    {
      tokens := tokens + [StartDocument];
    }

    method WriteEndDocument()
      modifies this
      ensures tokens == old(tokens) + [EndDocument]
    {
      tokens := tokens + [EndDocument];
    }

    method WriteStartArray()
      modifies this
      ensures tokens == old(tokens) + [StartArray]
    {
      tokens := tokens + [StartArray];
    }

    method WriteEndArray()
      modifies this
      ensures tokens == old(tokens) + [EndArray]
    {
      tokens := tokens + [EndArray];
    }

    method WriteName(name: string)
      modifies this
      ensures tokens == old(tokens) + [Name(name)]
    {
      tokens := tokens + [Name(name)];
    }

    method WriteDouble(d: Float64)
      modifies this
      ensures tokens == old(tokens) + [Value(DoubleValue(d))]
    {
      tokens := tokens + [Value(DoubleValue(d))];
    }

    /** Writes an untyped BSON value, as the generic BSON value serializer does. */
    method WriteBsonValue(v: BsonValue)
      modifies this
      ensures tokens == old(tokens) + ValueTokens(v)
    {
      tokens := tokens + ValueTokens(v);
    }

    /** Appends what another serializer wrote for one value. */
    method WriteSerialized(ts: seq<Token>)
      modifies this
      ensures tokens == old(tokens) + ts
    {
      tokens := tokens + ts;
    }
  }
}
