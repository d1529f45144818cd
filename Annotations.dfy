/**
 * The annotation convention: a `LongDescription` is a list of tags separated by
 * ';' (no escaping). `String.Split(';')` keeps empty segments, so "" splits into
 * [""] and "a;" into ["a", ""].
 */
module Annotations {
  import opened Wrappers
  import opened Odcm

  const Separator: char := ';'

  /** `s.Split(sep)`. */
  function Split(s: string, sep: char): (r: seq<string>)
    ensures |r| >= 1
    ensures forall i :: 0 <= i < |r| ==> sep !in r[i]
  {
    if s == [] then [""]
    else
      var rest := Split(s[1..], sep);
      if s[0] == sep then [""] + rest
      else [[s[0]] + rest[0]] + rest[1..]
  }

  /** `string.Join(sep, parts)`. */
  function Join(parts: seq<string>, sep: char): string
    requires |parts| >= 1
  {
    if |parts| == 1 then parts[0]
    else parts[0] + [sep] + Join(parts[1..], sep)
  }

  /** Joining the segments with the separator gives back the original text. */
  lemma {:induction false} JoinSplit(s: string, sep: char)
    ensures Join(Split(s, sep), sep) == s
  {
    if s != [] {
      var rest := Split(s[1..], sep);
      JoinSplit(s[1..], sep);
      if s[0] != sep {
        var r := Split(s, sep);
        if |rest| == 1 {
          assert r == [[s[0]] + rest[0]];
        } else {
          assert r[1..] == rest[1..];
          assert Join(r, sep) == [s[0]] + rest[0] + [sep] + Join(rest[1..], sep);
        }
      }
    }
  }

  /** Splitting a join of separator-free parts gives back the parts. */
  lemma {:induction false} SplitJoin(parts: seq<string>, sep: char)
    requires |parts| >= 1
    requires forall i :: 0 <= i < |parts| ==> sep !in parts[i]
    ensures Split(Join(parts, sep), sep) == parts
  {
    if |parts| == 1 {
      SplitPlain(parts[0], sep);
    } else {
      SplitJoin(parts[1..], sep);
      var x := [sep] + Join(parts[1..], sep);
      SplitPrefix(parts[0], x, sep);
      assert Join(parts, sep) == parts[0] + x;
      assert x[1..] == Join(parts[1..], sep);
      assert Split(x, sep) == [""] + parts[1..];
      assert parts[0] + "" == parts[0];
      assert parts == [parts[0]] + parts[1..];
    }
  }

  /** Text without a separator is a single segment. */
  lemma {:induction false} SplitPlain(s: string, sep: char)
    requires sep !in s
    ensures Split(s, sep) == [s]
  {
    if s != [] {
      SplitPlain(s[1..], sep);
      assert [s[0]] + s[1..] == s;
    }
  }

  /** A separator-free prefix extends the first segment of what follows it. */
  lemma {:induction false} SplitPrefix(a: string, b: string, sep: char)
    requires sep !in a
    ensures var r := Split(b, sep);
            Split(a + b, sep) == [a + r[0]] + r[1..]
  {
    if a != [] {
      var r := Split(b, sep);
      SplitPrefix(a[1..], b, sep);
      assert (a + b)[1..] == a[1..] + b;
      var rest := Split(a[1..] + b, sep);
      assert rest[0] == a[1..] + r[0] && rest[1..] == r[1..];
      assert (a + b)[0] == a[0] && a[0] != sep;
      assert [a[0]] + (a[1..] + r[0]) == a + r[0];
    } else {
      var r := Split(b, sep);
      assert a + b == b && a + r[0] == r[0];
      assert r == [r[0]] + r[1..];
    }
  }

  /** `GetLongDescriptionSegments`: `None` when there is no description. */
  function LongDescriptionSegments(o: OdcmObject): (r: Option<seq<string>>)
    ensures r.None? <==> LongDescription(o).None?
    ensures r.Some? ==> |r.value| >= 1 && Join(r.value, Separator) == LongDescription(o).value
    ensures r.Some? ==> forall i :: 0 <= i < |r.value| ==> Separator !in r.value[i]
  {
    match LongDescription(o)
    case None => None
    case Some(d) =>
      JoinSplit(d, Separator);
      Some(Split(d, Separator))
  }

  /** `LongDescriptionContains`: some segment equals `tag` exactly. */
  function LongDescriptionContains(o: OdcmObject, tag: string): (r: bool)
    ensures LongDescription(o).None? ==> !r
    ensures Separator in tag ==> !r
    ensures Separator !in tag && LongDescription(o) == Some(tag) ==> r
  {
    var parts := LongDescriptionSegments(o);
    if Separator in tag then
      parts.Some? && tag in parts.value
    else
      SplitPlain(tag, Separator);
      parts.Some? && tag in parts.value
  }

  predicate IsPrefix(p: string, s: string)
  {
    |p| <= |s| && s[..|p|] == p
  }

  /** A separator-free prefix of the text is a prefix of its first segment. */
  lemma PrefixOfFirstSegment(d: string, tag: string)
    ensures Separator !in tag && IsPrefix(tag, d) ==> IsPrefix(tag, Split(d, Separator)[0])
  {
    if Separator !in tag && IsPrefix(tag, d) {
      var rest := d[|tag|..];
      assert d == tag + rest;
      SplitPrefix(tag, rest, Separator);
      var first := tag + Split(rest, Separator)[0];
      assert first[..|tag|] == tag;
    }
  }

  /** `LongDescriptionStartsWith`: some segment begins with `tag`. */
  function LongDescriptionStartsWith(o: OdcmObject, tag: string): (r: bool)
    ensures LongDescription(o).None? ==> !r
    ensures Separator in tag ==> !r
    ensures LongDescription(o).Some? && Separator !in tag && IsPrefix(tag, LongDescription(o).value) ==> r
  {
    match LongDescription(o)
    case None => false
    case Some(d) =>
      var parts := LongDescriptionSegments(o).value;
      PrefixOfFirstSegment(d, tag);
      exists i :: 0 <= i < |parts| && IsPrefix(tag, parts[i])
  }

  /** A tag that is one of the segments is also a prefix of one. */
  lemma ContainsImpliesStartsWith(o: OdcmObject, tag: string)
    ensures LongDescriptionContains(o, tag) ==> LongDescriptionStartsWith(o, tag)
  {
    if LongDescriptionContains(o, tag) {
      var parts := LongDescriptionSegments(o).value;
      var i :| 0 <= i < |parts| && parts[i] == tag;
      assert IsPrefix(tag, parts[i]);
    }
  }

  /** The tags of a description written as `Join(tags)` are exactly `tags`. */
  lemma {:induction false} ContainsJoinedTag(o: OdcmObject, tags: seq<string>, tag: string)
    requires |tags| >= 1 && forall i :: 0 <= i < |tags| ==> Separator !in tags[i]
    requires LongDescription(o) == Some(Join(tags, Separator))
    ensures LongDescriptionContains(o, tag) <==> tag in tags
  {
    SplitJoin(tags, Separator);
  }

  /** For a description written as `Join(tags)`, a tag starts a segment exactly when it starts one of `tags`. */
  lemma StartsWithJoinedTags(o: OdcmObject, tags: seq<string>, tag: string)
    requires |tags| >= 1 && forall i :: 0 <= i < |tags| ==> Separator !in tags[i]
    requires LongDescription(o) == Some(Join(tags, Separator))
    ensures LongDescriptionStartsWith(o, tag) <==> exists i :: 0 <= i < |tags| && IsPrefix(tag, tags[i])
  {
    SplitJoin(tags, Separator);
    assert LongDescriptionSegments(o).value == tags;
  }
}
