/**
 The payload handling of the `/process-document` handler: an optional
 `data:image...;base64,` prefix is dropped with `split(',')[1]`, and any
 exception from there on is answered with status 500. Base64 decoding, image
 decoding and the whole image pipeline are one opaque step here, given as a
 predicate saying whether it completes without raising.
 */
module DataUrl {
  import opened Wrappers

  /** Python's `str.startswith`. */
  predicate StartsWith(s: string, prefix: string) {
    |prefix| <= |s| && s[..|prefix|] == prefix
  }

  const DataImagePrefix: string := "data:image"

  /** Python's `s.split(sep)` for a one-character separator. */
  function Split(s: string, sep: char): (parts: seq<string>)
    ensures |parts| >= 1
    ensures forall k :: 0 <= k < |parts| ==> sep !in parts[k]
    ensures |parts| == 1 <==> sep !in s
    decreases |s|
  {
    if |s| == 0 then [""]
    else
      var rest := Split(s[1..], sep);
      if s[0] == sep then [""] + rest
      else [[s[0]] + rest[0]] + rest[1..]
  }

  /** Python's `sep.join(parts)`. */
  function Join(parts: seq<string>, sep: char): string
    requires |parts| >= 1
    decreases |parts|
  {
    if |parts| == 1 then parts[0] else parts[0] + [sep] + Join(parts[1..], sep)
  }

  /** Joining the pieces of a split gives back the original text. */
  lemma {:induction false} JoinSplit(s: string, sep: char)
    ensures Join(Split(s, sep), sep) == s
    decreases |s|
  {
    if |s| > 0 {
      var rest := Split(s[1..], sep);
      JoinSplit(s[1..], sep);
      if s[0] == sep {
        assert Split(s, sep)[1..] == rest;
      } else {
        var parts := Split(s, sep);
        if |rest| == 1 {
          assert parts == [[s[0]] + rest[0]];
        } else {
          assert parts[1..] == rest[1..];
          assert Join(rest, sep) == rest[0] + [sep] + Join(rest[1..], sep);
        }
        assert s == [s[0]] + s[1..];
      }
    }
  }

  /** Splitting a separator-free text prefixed to a separator peels it off as the first piece. */
  lemma {:induction false} SplitAfterPiece(u: string, t: string, sep: char)
    requires sep !in u
    ensures Split(u + [sep] + t, sep) == [u] + Split(t, sep)
    decreases |u|
  {
    if |u| == 0 {
      assert u + [sep] + t == [sep] + t;
      assert ([sep] + t)[1..] == t;
    } else {
      SplitAfterPiece(u[1..], t, sep);
      assert (u + [sep] + t)[1..] == u[1..] + [sep] + t;
      assert [u[0]] + u[1..] == u;
    }
  }

  /** A separator-free text splits into itself alone. */
  lemma SplitSingle(u: string, sep: char)
    requires sep !in u
    ensures Split(u, sep) == [u]
  {
    JoinSplit(u, sep);
  }

  /** Splitting a join of separator-free pieces gives back the pieces. */
  lemma {:induction false} SplitJoin(parts: seq<string>, sep: char)
    requires |parts| >= 1
    requires forall k :: 0 <= k < |parts| ==> sep !in parts[k]
    ensures Split(Join(parts, sep), sep) == parts
    decreases |parts|
  {
    if |parts| == 1 {
      SplitSingle(parts[0], sep);
    } else {
      SplitJoin(parts[1..], sep);
      SplitAfterPiece(parts[0], Join(parts[1..], sep), sep);
      assert [parts[0]] + parts[1..] == parts;
    }
  }

  /** Why stripping can fail: `split(',')[1]` on a text with no comma. */
  datatype StripError = IndexError

  /**
   `v` is the text between the first comma of `s` and the next comma (or the
   end of `s`).
   */
  ghost predicate IsSecondField(s: string, v: string) {
    exists i :: 0 <= i < |s| && s[i] == ',' && ',' !in s[..i]
      && i + 1 + |v| <= |s| && s[i + 1..i + 1 + |v|] == v && ',' !in v
      && (i + 1 + |v| == |s| || s[i + 1 + |v|] == ',')
  }

  /** Lines 193-194 of the handler: drop the data-URL prefix up to the first comma. */
  function StripDataUrl(s: string): (r: Result<string, StripError>)
    ensures !StartsWith(s, DataImagePrefix) ==> r == Ok(s)
    ensures StartsWith(s, DataImagePrefix) && ',' !in s ==> r == Err(IndexError)
    ensures StartsWith(s, DataImagePrefix) && ',' in s ==> r.Ok? && IsSecondField(s, r.value)
  {
    if StartsWith(s, DataImagePrefix) then
      var parts := Split(s, ',');
      if |parts| >= 2 then
        SecondPiece(s);
        Ok(parts[1])
      else Err(IndexError)
    else Ok(s)
  }

  /** The second piece of a split on ',' is the text between the first two commas. */
  lemma SecondPiece(s: string)
    requires |Split(s, ',')| >= 2
    ensures IsSecondField(s, Split(s, ',')[1])
  {
    var parts := Split(s, ',');
    JoinSplit(s, ',');
    var i := |parts[0]|;
    var v := parts[1];
    var tail := if |parts| == 2 then "" else [','] + Join(parts[2..], ',');
    assert Join(parts[1..], ',') == v + tail by {
      if |parts| > 2 {
        assert parts[1..][1..] == parts[2..];
      }
    }
    assert s == parts[0] + [','] + v + tail;
    assert s[..i] == parts[0];
    assert s[i + 1..i + 1 + |v|] == v;
    assert i + 1 + |v| == |s| || s[i + 1 + |v|] == ',';
  }

  /** The HTTP status the handler answers with. */
  datatype Status = Ok200 | BadRequest400 | ServerError500

  /**
   `process_document`'s outcome: 400 when the request has no `image` field,
   500 when stripping raises or the rest of the pipeline raises on the
   stripped payload, 200 otherwise.
   */
  function ProcessDocument(image: Option<string>, pipelineSucceeds: string -> bool): (r: Status)
    ensures r == BadRequest400 <==> image.None?
    ensures image.Some? && StartsWith(image.value, DataImagePrefix) && ',' !in image.value ==>
      r == ServerError500
    ensures image.Some? && !StartsWith(image.value, DataImagePrefix) ==>
      (r == Ok200 <==> pipelineSucceeds(image.value))
    ensures r == Ok200 ==> exists v :: StripDataUrl(image.value) == Ok(v) && pipelineSucceeds(v)
    ensures image.Some? ==>
      (r == Ok200 <==> StripDataUrl(image.value).Ok? && pipelineSucceeds(StripDataUrl(image.value).value))
  {
    match image
    case None => BadRequest400
    case Some(s) =>
      match StripDataUrl(s)
      case Err(_) => ServerError500
      case Ok(v) => if pipelineSucceeds(v) then Ok200 else ServerError500
  }
}
