/** The few PHP built-ins the help generator relies on, stated on strings. */
module Php {

  datatype Option<+T> = None | Some(value: T)

  /** PHP_EOL on a POSIX host. */
  const Eol: string := "\n"

  /** PHP truthiness of a string: only "" and "0" are false. */
  predicate Truthy(s: string) {
    s != "" && s != "0"
  }

  /** PHP `empty()` applied to a string. */
  predicate IsEmpty(s: string) {
    !Truthy(s)
  }

  /** `needle` occurs in `s` starting at position `i`. */
  predicate OccursAt(s: string, needle: string, i: nat) {
    i + |needle| <= |s| && s[i..i + |needle|] == needle
  }

  /**
   * str_replace(search, '', subject): scans the subject left to right and
   * deletes every non-overlapping occurrence of `search`; the text that is
   * left behind is not scanned again. An empty search leaves the subject as is.
   */
  function StrRemove(search: string, subject: string): (r: string)
    ensures |r| <= |subject|
    decreases |subject|
  {
    if search == "" || |subject| < |search| then subject
    else if subject[..|search|] == search then StrRemove(search, subject[|search|..])
    else [subject[0]] + StrRemove(search, subject[1..])
  }

  /** A subject in which `search` never occurs comes back unchanged. */
  lemma {:induction false} StrRemoveAbsent(search: string, subject: string)
    requires forall i: nat :: !OccursAt(subject, search, i)
    ensures StrRemove(search, subject) == subject
    decreases |subject|
  {
    if search == "" || |subject| < |search| {
    } else {
      assert !OccursAt(subject, search, 0);
      assert subject[0..|search|] == subject[..|search|];
      forall i: nat ensures !OccursAt(subject[1..], search, i) {
        assert !OccursAt(subject, search, i + 1);
        if i + |search| <= |subject[1..]| {
          assert subject[1..][i..i + |search|] == subject[i + 1..i + 1 + |search|];
        }
      }
      StrRemoveAbsent(search, subject[1..]);
    }
  }

  /** A leading occurrence is deleted and scanning resumes right after it. */
  lemma StrRemoveLeading(search: string, rest: string)
    requires search != ""
    ensures StrRemove(search, search + rest) == StrRemove(search, rest)
  {
    assert (search + rest)[..|search|] == search;
    assert (search + rest)[|search|..] == rest;
  }

  /** A character that does not start an occurrence is kept and the scan moves on by one. */
  lemma StrRemoveKeep(search: string, c: char, rest: string)
    requires search != "" && |search| <= 1 + |rest| && ([c] + rest)[..|search|] != search
    ensures StrRemove(search, [c] + rest) == [c] + StrRemove(search, rest)
  {
    assert ([c] + rest)[1..] == rest;
  }

  /** A word without the first character of `search`, followed by `search`, loses exactly that suffix. */
  lemma {:induction false} StrRemoveTail(word: string, search: string)
    requires search != ""
    requires search[0] !in word
    ensures StrRemove(search, word + search) == word
    decreases |word|
  {
    if word == [] {
      assert word + search == search + [];
      StrRemoveLeading(search, []);
    } else {
      assert word + search == [word[0]] + (word[1..] + search);
      assert ([word[0]] + (word[1..] + search))[..|search|][0] == word[0];
      StrRemoveKeep(search, word[0], word[1..] + search);
      StrRemoveTail(word[1..], search);
    }
  }

  predicate IsAsciiUpper(c: char) {
    'A' <= c <= 'Z'
  }

  function LowerChar(c: char): (r: char)
    ensures !IsAsciiUpper(r)
    ensures IsAsciiUpper(c) ==> r as int == c as int + 32
    ensures !IsAsciiUpper(c) ==> r == c
  {
    if IsAsciiUpper(c) then (c as int + 32) as char else c
  }

  /** strtolower: maps the ASCII letters A-Z to a-z and keeps every other character. */
  function StrToLower(s: string): (r: string)
    ensures |r| == |s|
    ensures forall i | 0 <= i < |s| :: r[i] == LowerChar(s[i])
    ensures forall i | 0 <= i < |r| :: !IsAsciiUpper(r[i])
    decreases |s|
  {
    if s == [] then [] else [LowerChar(s[0])] + StrToLower(s[1..])
  }

  lemma StrToLowerIdempotent(s: string)
    ensures StrToLower(StrToLower(s)) == StrToLower(s)
  {
  }

  /**
   * pathinfo($entry)["filename"] for a directory entry (which holds no '/'):
   * everything before the last '.', or the whole entry when it has none.
   */
  function PathFilename(entry: string): (r: string)
    ensures r <= entry
    ensures '.' !in entry ==> r == entry
    ensures '.' in entry ==> |r| < |entry| && entry[|r|] == '.' && '.' !in entry[|r| + 1..]
    decreases |entry|
  {
    if '.' !in entry then entry
    else if entry[|entry| - 1] == '.' then entry[..|entry| - 1]
    else
      assert '.' in entry[..|entry| - 1] by {
        var i :| 0 <= i < |entry| && entry[i] == '.';
        assert entry[..|entry| - 1][i] == '.';
      }
      var r := PathFilename(entry[..|entry| - 1]);
      assert entry[|r| + 1..] == entry[..|entry| - 1][|r| + 1..] + [entry[|entry| - 1]];
      r
  }

  /** The filename of `name.ext` is `name` when the extension holds no '.'. */
  lemma PathFilenameStripsExtension(name: string, ext: string)
    requires '.' !in ext
    ensures PathFilename(name + "." + ext) == name
  {
    var entry := name + "." + ext;
    var r := PathFilename(entry);
    assert entry[|name|] == '.';
    assert r == entry[..|r|] == name;
  }

  /** implode(separator, parts). */
  function Implode(separator: string, parts: seq<string>): (r: string)
    ensures |parts| == 1 ==> r == parts[0]
    ensures |parts| == 0 ==> r == ""
  {
    if parts == [] then ""
    else if |parts| == 1 then parts[0]
    else parts[0] + separator + Implode(separator, parts[1..])
  }

  /** One more part is joined after the separator: with the cases for 0 and 1 parts, this fixes implode. */
  lemma {:induction false} ImplodeSnoc(separator: string, parts: seq<string>, x: string)
    requires parts != []
    ensures Implode(separator, parts + [x]) == Implode(separator, parts) + separator + x
    decreases |parts|
  {
    if |parts| == 1 {
      assert (parts + [x])[1..] == [x];
    } else {
      assert (parts + [x])[1..] == parts[1..] + [x];
      ImplodeSnoc(separator, parts[1..], x);
    }
  }
}
