/** Quoting of table names (`src/schema.rs`): a dotted path is split into parts,
    each part is written between backticks with its own backticks doubled. */
module Identifiers {
  import opened Bytes
  import opened TypeText

  // --------------------------------------------------------------------------
  // Quoting
  // --------------------------------------------------------------------------

  /** Every backtick doubled. */
  function Doubled(s: string): (t: string)
  {
    if s == "" then "" else (if s[0] == '`' then "``" else [s[0]]) + Doubled(s[1..])
  }

  function Quoted(s: string): (t: string)
  {
    "`" + Doubled(s) + "`"
  }

  /** The quoted parts with dots between them. */
  function Join(parts: seq<string>): (t: string)
  {
    if parts == [] then ""
    else if |parts| == 1 then Quoted(parts[0])
    else Quoted(parts[0]) + ("." + Join(parts[1..]))
  }

  // --------------------------------------------------------------------------
  // Splitting
  // --------------------------------------------------------------------------

  /** The parts of the rest `s` of a path, inside or outside quotes, with `part`
      begun. */
  function SplitFrom(s: string, quoted: bool, part: string): (r: Result<seq<string>>)
    decreases |s|
  {
    if s == "" then
      if quoted || Trim(part) == "" then Err(BadTypeName) else Ok([Trim(part)])
    else if s[0] == '`' && quoted && |s| > 1 && s[1] == '`' then SplitFrom(s[2..], true, part + "`")
    else if s[0] == '`' then SplitFrom(s[1..], !quoted, part)
    else if s[0] == '.' && !quoted then
      if Trim(part) == "" then Err(BadTypeName)
      else
        var rest :- SplitFrom(s[1..], false, "");
        Ok([Trim(part)] + rest)
    else SplitFrom(s[1..], quoted, part + [s[0]])
  }

  /** `split_identifier_path`. */
  function Split(path: string): (r: Result<seq<string>>)
  {
    SplitFrom(Trim(path), false, "")
  }

  /** `quote_identifier_path`. A split path has at least one part. */
  function QuotePath(path: string): (r: Result<string>)
  {
    var parts :- Split(path);
    if parts == [] then Err(BadTypeName) else Ok(Join(parts))
  }

  // --------------------------------------------------------------------------
  // As they are carried out
  // --------------------------------------------------------------------------

  /** `quote_identifier`. */
  method QuoteIdentifier(identifier: string, buf: string) returns (out: string)
    ensures out == buf + Quoted(identifier)
  {
    out := buf + "`";
    assert identifier[0..] == identifier;
    for i := 0 to |identifier|
      invariant buf + "`" + Doubled(identifier) == out + Doubled(identifier[i..])
    {
      assert identifier[i..][1..] == identifier[i + 1..];
      if identifier[i] == '`' {
        out := out + "`";
      }
      out := out + [identifier[i]];
    }
    assert out + "" == out;
    out := out + "`";
    assert buf + "`" + Doubled(identifier) + "`" == buf + Quoted(identifier);
  }

  method SplitIdentifierPath(path: string) returns (r: Result<seq<string>>)
    ensures r == Split(path)
  {
    hide Trim;
    var parts: seq<string>, part, quoted := [], "", false;
    var s := Trim(path);
    var i := 0;
    assert s[0..] == s;
    while i < |s|
      invariant i <= |s|
      invariant Split(path) == Behind(parts, SplitFrom(s[i..], quoted, part))
    {
      var ch := s[i];
      assert s[i..][1..] == s[i + 1..];
      i := i + 1;
      if ch == '`' && quoted && i < |s| && s[i] == '`' {
        assert s[i - 1..][2..] == s[i + 1..];
        part := part + "`";
        i := i + 1;
      } else if ch == '`' {
        quoted := !quoted;
      } else if ch == '.' && !quoted {
        var trimmed := Trim(part);
        if trimmed == "" { return Err(BadTypeName); }
        BehindNext(parts, trimmed, SplitFrom(s[i..], false, ""));
        parts := parts + [trimmed];
        part := "";
      } else {
        part := part + [ch];
      }
    }
    if quoted { return Err(BadTypeName); }
    var trimmed := Trim(part);
    if trimmed == "" { return Err(BadTypeName); }
    return Ok(parts + [trimmed]);
  }

  /** Parts already split off, in front of those still to come. */
  function Behind(done: seq<string>, r: Result<seq<string>>): (s: Result<seq<string>>)
    ensures done == [] ==> s == r
  {
    if r.Ok? then
      assert done == [] ==> done + r.value == r.value;
      Ok(done + r.value)
    else r
  }

  lemma BehindNext(done: seq<string>, x: string, r: Result<seq<string>>)
    ensures Behind(done, Behind([x], r)) == Behind(done + [x], r)
  {
    if r.Ok? {
      assert done + ([x] + r.value) == done + [x] + r.value;
    }
  }

  method QuoteIdentifierPath(path: string) returns (r: Result<string>)
    ensures r == QuotePath(path)
  {
    hide Split;
    var parts := SplitIdentifierPath(path);
    if parts.Err? { return Err(parts.error); }
    if parts.value == [] { return Err(BadTypeName); }
    var out := "";
    for i := 0 to |parts.value|
      invariant out == Join(parts.value[..i])
    {
      var was := parts.value[..i];
      if i != 0 {
        out := out + ".";
      }
      out := QuoteIdentifier(parts.value[i], out);
      JoinSnoc(was, parts.value[i]);
      assert was + [parts.value[i]] == parts.value[..i + 1];
    }
    assert parts.value[..|parts.value|] == parts.value;
    return Ok(out);
  }

  lemma {:induction false} JoinSnoc(parts: seq<string>, last: string)
    ensures Join(parts + [last]) == Join(parts) + (if parts == [] then "" else ".") + Quoted(last)
  {
    hide Quoted;
    if parts == [] {
      assert [] + [last] == [last];
    } else {
      JoinSnoc(parts[1..], last);
      assert (parts + [last])[0] == parts[0] && (parts + [last])[1..] == parts[1..] + [last];
    }
  }

  // --------------------------------------------------------------------------
  // Round trip
  // --------------------------------------------------------------------------

  /** Not empty and without surrounding white space. */
  predicate GoodPart(s: string)
  {
    s != "" && Trim(s) == s
  }

  predicate GoodParts(parts: seq<string>)
  {
    parts != [] && forall i :: 0 <= i < |parts| ==> GoodPart(parts[i])
  }

  /** Inside quotes everything up to the closing backtick is the identifier. */
  lemma {:induction false} Unquote(s: string, rest: string, part: string)
    requires rest == "" || rest[0] != '`'
    ensures SplitFrom(Doubled(s) + ("`" + rest), true, part) == SplitFrom(rest, false, part + s)
    decreases |s|
  {
    hide Trim;
    var text := Doubled(s) + ("`" + rest);
    if s == "" {
      assert text == "`" + rest && text[1..] == rest;
      assert part + "" == part;
    } else {
      var tail := Doubled(s[1..]) + ("`" + rest);
      assert part + [s[0]] + s[1..] == part + s;
      if s[0] == '`' {
        assert text == "``" + tail && text[2..] == tail;
        Unquote(s[1..], rest, part + "`");
      } else {
        assert text == [s[0]] + tail && text[1..] == tail;
        Unquote(s[1..], rest, part + [s[0]]);
      }
    }
  }

  lemma SplitQuoted(s: string, rest: string)
    requires rest == "" || rest[0] == '.'
    ensures SplitFrom(Quoted(s) + rest, false, "") == SplitFrom(rest, false, s)
  {
    var text := Quoted(s) + rest;
    assert text == "`" + (Doubled(s) + ("`" + rest)) && text[1..] == Doubled(s) + ("`" + rest);
    Unquote(s, rest, "");
    assert "" + s == s;
  }

  lemma {:induction false} SplitJoined(parts: seq<string>)
    requires GoodParts(parts)
    ensures SplitFrom(Join(parts), false, "") == Ok(parts)
    decreases |parts|
  {
    hide Trim, Quoted;
    var p := parts[0];
    assert GoodPart(p);
    if |parts| == 1 {
      assert Quoted(p) + "" == Quoted(p);
      SplitQuoted(p, "");
      assert parts == [p];
    } else {
      var rest := "." + Join(parts[1..]);
      SplitQuoted(p, rest);
      assert rest[1..] == Join(parts[1..]);
      assert forall i :: 0 <= i < |parts[1..]| ==> parts[1..][i] == parts[i + 1];
      SplitJoined(parts[1..]);
      assert [p] + parts[1..] == parts;
    }
  }

  /** Nothing surrounds a joined path that trimming would take away. */
  lemma {:induction false} JoinedIsTrimmed(parts: seq<string>)
    requires parts != []
    ensures Join(parts) != "" && Join(parts)[0] == '`' && Join(parts)[|Join(parts)| - 1] == '`'
    ensures Trim(Join(parts)) == Join(parts)
    decreases |parts|
  {
    if |parts| > 1 {
      JoinedIsTrimmed(parts[1..]);
    }
  }

  /** Every part of a split path is good. */
  lemma {:induction false} SplitIsGood(s: string, quoted: bool, part: string)
    requires SplitFrom(s, quoted, part).Ok?
    ensures GoodParts(SplitFrom(s, quoted, part).value)
    decreases |s|
  {
    hide Trim;
    if s == "" {
      TrimTwice(part);
    } else if s[0] == '`' && quoted && |s| > 1 && s[1] == '`' {
      SplitIsGood(s[2..], true, part + "`");
    } else if s[0] == '`' {
      SplitIsGood(s[1..], !quoted, part);
    } else if s[0] == '.' && !quoted {
      SplitIsGood(s[1..], false, "");
      TrimTwice(part);
    } else {
      SplitIsGood(s[1..], quoted, part + [s[0]]);
    }
  }

  lemma TrimTwice(s: string)
    ensures Trim(Trim(s)) == Trim(s)
  {
    var t := TrimStart(s);
    assert Trim(s) == "" || Trim(s)[0] == t[0];
  }

  /** Splitting what was joined gives the parts back exactly when there are any,
      none is empty and none has surrounding white space. */
  lemma SplitJoinRoundTrip(parts: seq<string>)
    ensures Split(Join(parts)) == Ok(parts) <==> GoodParts(parts)
  {
    hide SplitFrom, Trim, Join;
    if GoodParts(parts) {
      JoinedIsTrimmed(parts);
      SplitJoined(parts);
    }
    if Split(Join(parts)) == Ok(parts) {
      SplitIsGood(Trim(Join(parts)), false, "");
    }
  }

  /** Quoting a path that has been quoted changes nothing. */
  lemma QuotingIsIdempotent(path: string)
    requires QuotePath(path).Ok?
    ensures QuotePath(QuotePath(path).value) == QuotePath(path)
  {
    hide SplitFrom, Trim, Join, GoodParts;
    var parts := Split(path).value;
    SplitIsGood(Trim(path), false, "");
    SplitJoinRoundTrip(parts);
  }

  /** Different lists of good parts have different quoted paths. */
  lemma QuotedPathsDiffer(a: seq<string>, b: seq<string>)
    requires GoodParts(a) && GoodParts(b) && Join(a) == Join(b)
    ensures a == b
  {
    hide Join, Split, GoodParts;
    SplitJoinRoundTrip(a);
    SplitJoinRoundTrip(b);
  }
}
