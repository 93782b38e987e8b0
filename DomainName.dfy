/**
 * The domain-name validation attribute. Its regular expression accepts one
 * or more labels and a top-level domain separated by single dots, where a
 * label is 2 to 63 letters, digits or hyphens that starts and ends with a
 * letter or digit (the rules of section 2 of RFC 3696, save the length floor),
 * the top-level domain is at least two ASCII letters, and the whole string
 * must not begin with "http://", "https://" or "www.".
 *
 * The expression is modelled as the language it denotes, recognized by
 * splitting on dots and checking each part. .NET's `$` matches at the end of
 * the input or before a final newline, and the model keeps that.
 */
module DomainName {
  import opened Common

  predicate IsAsciiLetter(c: char) {
    'a' <= c <= 'z' || 'A' <= c <= 'Z'
  }

  predicate IsAlphanumeric(c: char) {
    IsAsciiLetter(c) || '0' <= c <= '9'
  }

  /** `[a-zA-Z0-9-]` */
  predicate IsLabelChar(c: char) {
    IsAlphanumeric(c) || c == '-'
  }

  /** A character that can appear in an accepted domain. */
  predicate IsDomainChar(c: char) {
    IsLabelChar(c) || c == '.'
  }

  const MaxLabelLength: nat := 63
  /** The fewest characters of a non-final label in the expression: `[a-zA-Z0-9]` twice around `[a-zA-Z0-9-]{0,61}`. */
  const PatternMinLabelLength: nat := 2
  /** The fewest characters section 2 of RFC 3696 allows in a label. */
  const RfcMinLabelLength: nat := 1

  /** A non-final label of at least `minLength` characters. */
  predicate IsLabel(part: string, minLength: nat) {
    && 1 <= |part| && minLength <= |part| <= MaxLabelLength
    && IsAlphanumeric(part[0]) && IsAlphanumeric(part[|part| - 1])
    && forall i :: 0 <= i < |part| ==> IsLabelChar(part[i])
  }

  /** `[a-zA-Z]{2,}`: no upper bound, no digits, no hyphens. */
  predicate IsTld(tld: string) {
    |tld| >= 2 && forall i :: 0 <= i < |tld| ==> IsAsciiLetter(tld[i])
  }

  /** The parts separated by single dots. */
  function Join(parts: seq<string>): string
    requires |parts| >= 1
  {
    if |parts| == 1 then parts[0] else parts[0] + "." + Join(parts[1..])
  }

  function IndexOfDot(s: string): (i: nat)
    requires '.' in s
    ensures i < |s| && s[i] == '.' && '.' !in s[..i]
  {
    if s[0] == '.' then 0
    else
      var i := IndexOfDot(s[1..]) + 1;
      assert s[..i] == [s[0]] + s[1..][..i - 1];
      i
  }

  /** The parts between dots, which joined with dots give `s` back. */
  function Split(s: string): (parts: seq<string>)
    ensures |parts| >= 1
    ensures forall i :: 0 <= i < |parts| ==> '.' !in parts[i]
    ensures Join(parts) == s
    decreases |s|
  {
    if '.' !in s then [s]
    else
      var i := IndexOfDot(s);
      var rest := Split(s[i + 1..]);
      assert ([s[..i]] + rest)[1..] == rest;
      assert s == s[..i] + "." + s[i + 1..];
      [s[..i]] + rest
  }

  /** Splitting joined dot-free parts gives the parts back. */
  lemma {:induction false} SplitJoin(parts: seq<string>)
    requires |parts| >= 1
    requires forall i :: 0 <= i < |parts| ==> '.' !in parts[i]
    ensures Split(Join(parts)) == parts
  {
    if |parts| > 1 {
      var s := Join(parts);
      var head := parts[0];
      assert s == head + "." + Join(parts[1..]);
      assert s[|head|] == '.';
      var i := IndexOfDot(s);
      assert i == |head| by {
        forall j | 0 <= j < i ensures s[j] != '.' {
          assert s[j] == s[..i][j];
        }
        forall j | 0 <= j < |head| ensures s[j] != '.' {
          assert s[j] == head[j];
        }
      }
      assert s[..i] == head;
      assert s[i + 1..] == Join(parts[1..]);
      SplitJoin(parts[1..]);
    }
  }

  function Last(parts: seq<string>): string
    requires |parts| >= 1
  {
    parts[|parts| - 1]
  }

  /** Non-final parts are labels and the final part is a top-level domain. */
  predicate LabelsThenTld(parts: seq<string>, minLabelLength: nat) {
    && |parts| >= 2
    && (forall i :: 0 <= i < |parts| - 1 ==> IsLabel(parts[i], minLabelLength))
    && IsTld(Last(parts))
  }

  /** The body of the expression after the lookahead, anchored at both ends. */
  predicate IsDomainBody(s: string, minLabelLength: nat) {
    LabelsThenTld(Split(s), minLabelLength)
  }

  predicate StartsWith(s: string, prefix: string) {
    |prefix| <= |s| && s[..|prefix|] == prefix
  }

  /** `(?!(http(s)?:\/\/|www\.))`, case-sensitive. */
  predicate HasExcludedPrefix(s: string) {
    StartsWith(s, "http://") || StartsWith(s, "https://") || StartsWith(s, "www.")
  }

  /** `DomainValidationRegex().IsMatch(s)`: the lookahead at the start, the body, then
      .NET's `$`, which also matches just before a final newline. */
  predicate IsMatch(s: string): (matched: bool)
    // Only letters, digits, hyphens and dots match, save one final newline.
    ensures matched ==> forall k :: 0 <= k < |s| ==> IsDomainChar(s[k]) || (k == |s| - 1 && s[k] == '\n')
    // What matches is never empty and never ends in a digit or hyphen.
    ensures matched ==> |s| >= 1 && (IsAsciiLetter(s[|s| - 1]) || (s[|s| - 1] == '\n' && |s| >= 2 && IsAsciiLetter(s[|s| - 2])))
  {
    MatchedCharacters(s);
    && !HasExcludedPrefix(s)
    && (|| IsDomainBody(s, PatternMinLabelLength)
        || (|s| >= 1 && s[|s| - 1] == '\n' && IsDomainBody(s[..|s| - 1], PatternMinLabelLength)))
  }

  /** `DomainNameAttribute.IsValid`: a null value is invalid. */
  predicate IsValid(value: Option<string>): (valid: bool)
    ensures value.None? ==> !valid
    ensures valid ==> forall k :: 0 <= k < |value.value| ==>
      IsDomainChar(value.value[k]) || (k == |value.value| - 1 && value.value[k] == '\n')
  {
    value.Some? && IsMatch(value.value)
  }

  /** The validator as evidently intended: one-character labels are allowed, as
      section 2 of RFC 3696 does, and the match ends at the end of the input. */
  predicate IsValidIntended(value: Option<string>): (valid: bool)
    ensures value.None? ==> !valid
    // Only letters, digits, hyphens and dots, ending in a letter: no final newline.
    ensures valid ==> forall k :: 0 <= k < |value.value| ==> IsDomainChar(value.value[k])
    ensures valid ==> |value.value| >= 1 && IsAsciiLetter(value.value[|value.value| - 1])
  {
    && value.Some?
    && (BodyIsWellFormed(value.value, RfcMinLabelLength);
        WellFormedCharacters(value.value);
        !HasExcludedPrefix(value.value) && IsDomainBody(value.value, RfcMinLabelLength))
  }

  // The language of the expression.

  /** Dot-free parts joined by dots form a domain body exactly when the parts are
      labels followed by a top-level domain: the expression as a concatenation. */
  lemma DomainOfParts(parts: seq<string>, minLabelLength: nat)
    requires |parts| >= 1
    requires forall i :: 0 <= i < |parts| ==> '.' !in parts[i]
    ensures IsDomainBody(Join(parts), minLabelLength) <==> LabelsThenTld(parts, minLabelLength)
  {
    SplitJoin(parts);
  }

  /** A part whose first and last characters are letters or digits and whose
      characters are all label characters. */
  predicate IsAlnumBounded(part: string) {
    && |part| >= 1 && IsAlphanumeric(part[0]) && IsAlphanumeric(part[|part| - 1])
    && forall i :: 0 <= i < |part| ==> IsLabelChar(part[i])
  }

  /** Every character is a label character or a dot with a letter or digit on each side,
      and the string starts with a letter or digit. */
  predicate IsWellFormed(s: string) {
    && |s| >= 1 && IsAlphanumeric(s[0]) && IsAlphanumeric(s[|s| - 1])
    && forall k :: 0 <= k < |s| ==> IsWellPlaced(s, k)
  }

  /** The character at `k` is a label character, or a dot between two letters or digits. */
  predicate IsWellPlaced(s: string, k: nat)
    requires k < |s|
  {
    || IsLabelChar(s[k])
    || (s[k] == '.' && 0 < k < |s| - 1 && IsAlphanumeric(s[k - 1]) && IsAlphanumeric(s[k + 1]))
  }

  lemma {:induction false} JoinIsWellFormed(parts: seq<string>)
    requires |parts| >= 1
    requires forall i :: 0 <= i < |parts| ==> IsAlnumBounded(parts[i])
    ensures IsWellFormed(Join(parts))
  {
    if |parts| == 1 {
      assert IsAlnumBounded(parts[0]);
    } else {
      var head := parts[0];
      assert IsAlnumBounded(head);
      var rest := Join(parts[1..]);
      JoinIsWellFormed(parts[1..]);
      var s := Join(parts);
      assert s == head + "." + rest;
      assert s[0] == head[0] && s[|s| - 1] == rest[|rest| - 1];
      forall k | 0 <= k < |s| ensures IsWellPlaced(s, k) {
        if k < |head| {
          assert s[k] == head[k];
        } else if k == |head| {
          assert s[k - 1] == head[|head| - 1] && s[k + 1] == rest[0];
        } else {
          var j := k - |head| - 1;
          assert s[k] == rest[j];
          assert IsWellPlaced(rest, j);
          if !IsLabelChar(s[k]) {
            assert rest[j] == '.' && 0 < j < |rest| - 1;
            assert s[k - 1] == rest[j - 1] && s[k + 1] == rest[j + 1];
          }
        }
      }
    }
  }

  /** The last character of joined parts is the last character of the last part. */
  lemma {:induction false} JoinEndsWithLast(parts: seq<string>)
    requires |parts| >= 1 && |Last(parts)| >= 1
    ensures |Join(parts)| >= 1 && Join(parts)[|Join(parts)| - 1] == Last(parts)[|Last(parts)| - 1]
  {
    if |parts| > 1 {
      JoinEndsWithLast(parts[1..]);
      assert Last(parts[1..]) == Last(parts);
    }
  }

  /** Whatever the label floor, an accepted body is well formed and ends in a letter. */
  lemma BodyIsWellFormed(s: string, minLabelLength: nat)
    ensures IsDomainBody(s, minLabelLength) ==> IsWellFormed(s) && IsAsciiLetter(s[|s| - 1])
  {
    if IsDomainBody(s, minLabelLength) {
      var parts := Split(s);
      forall i | 0 <= i < |parts| ensures IsAlnumBounded(parts[i]) {
        if i == |parts| - 1 {
          assert IsTld(Last(parts));
        } else {
          assert IsLabel(parts[i], minLabelLength);
        }
      }
      JoinIsWellFormed(parts);
      JoinEndsWithLast(parts);
    }
  }

  /** A well-formed string holds only letters, digits, hyphens and dots. */
  lemma WellFormedCharacters(s: string)
    ensures IsWellFormed(s) ==> forall k :: 0 <= k < |s| ==> IsDomainChar(s[k])
  {
    if IsWellFormed(s) {
      forall k | 0 <= k < |s| ensures IsDomainChar(s[k]) {
        assert IsWellPlaced(s, k);
      }
    }
  }

  /** The characters and the last letter of what the body matches, with or without a final newline. */
  lemma MatchedCharacters(s: string)
    ensures IsDomainBody(s, PatternMinLabelLength) ==>
      && (forall k :: 0 <= k < |s| ==> IsDomainChar(s[k]))
      && |s| >= 1 && IsAsciiLetter(s[|s| - 1])
    ensures |s| >= 1 && s[|s| - 1] == '\n' && IsDomainBody(s[..|s| - 1], PatternMinLabelLength) ==>
      && (forall k :: 0 <= k < |s| - 1 ==> IsDomainChar(s[k]))
      && |s| >= 2 && IsAsciiLetter(s[|s| - 2])
  {
    BodyIsWellFormed(s, PatternMinLabelLength);
    WellFormedCharacters(s);
    if |s| >= 1 {
      var trimmed := s[..|s| - 1];
      BodyIsWellFormed(trimmed, PatternMinLabelLength);
      WellFormedCharacters(trimmed);
      assert forall k :: 0 <= k < |s| - 1 ==> s[k] == trimmed[k];
    }
  }

  /** The string the body of the expression matched: the input, or the input
      without its final newline. */
  function MatchedBody(s: string): string
  {
    if IsDomainBody(s, PatternMinLabelLength) || |s| == 0 then s else s[..|s| - 1]
  }

  /** An accepted string's matched body is well formed. */
  lemma AcceptedIsWellFormed(s: string)
    ensures IsValid(Some(s)) ==>
      && (MatchedBody(s) == s || (s[|s| - 1] == '\n' && MatchedBody(s) == s[..|s| - 1]))
      && IsWellFormed(MatchedBody(s)) && IsAsciiLetter(MatchedBody(s)[|MatchedBody(s)| - 1])
  {
    BodyIsWellFormed(MatchedBody(s), PatternMinLabelLength);
  }

  // Properties of the validator.

  /** A null value is invalid; so is the empty string. */
  lemma NullAndEmptyInvalid()
    ensures !IsValid(None)
    ensures !IsValid(Some(""))
  {
    assert Split("") == [""];
  }

  /** Any character other than a letter, digit, hyphen or dot rejects the string,
      except one final newline. */
  lemma ForeignCharacterRejected(s: string, k: nat)
    requires k < |s| && !IsDomainChar(s[k])
    requires !(k == |s| - 1 && s[k] == '\n')
    ensures !IsValid(Some(s))
  {
  }

  /** A string that starts with a hyphen or a dot is rejected. */
  lemma LeadingPunctuationRejected(s: string)
    requires |s| >= 1 && (s[0] == '-' || s[0] == '.')
    ensures !IsValid(Some(s))
  {
    AcceptedIsWellFormed(s);
  }

  /** A hyphen next to a dot, or two dots in a row. */
  predicate IsPunctuationPair(a: char, b: char) {
    (a == '-' && b == '.') || (a == '.' && b == '-') || (a == '.' && b == '.')
  }

  /** A well-formed string holds no punctuation pair. */
  lemma NoPunctuationPair(t: string, k: nat)
    ensures IsWellFormed(t) && k + 1 < |t| ==> !IsPunctuationPair(t[k], t[k + 1])
  {
    if IsWellFormed(t) && k + 1 < |t| {
      assert IsWellPlaced(t, k) && IsWellPlaced(t, k + 1);
    }
  }

  /** Two characters before any final newline survive into the matched body. */
  lemma PairInMatchedBody(s: string, k: nat)
    requires k + 1 < |s| && s[k + 1] != '\n'
    ensures (MatchedBody(s) == s || (s[|s| - 1] == '\n' && MatchedBody(s) == s[..|s| - 1])) ==>
      k + 1 < |MatchedBody(s)| && MatchedBody(s)[k] == s[k] && MatchedBody(s)[k + 1] == s[k + 1]
  {
  }

  /** A hyphen next to a dot and a doubled dot reject the string. */
  lemma PunctuationPairRejected(s: string, k: nat)
    requires k + 1 < |s| && IsPunctuationPair(s[k], s[k + 1])
    ensures !IsValid(Some(s))
  {
    AcceptedIsWellFormed(s);
    PairInMatchedBody(s, k);
    NoPunctuationPair(MatchedBody(s), k);
  }

  /** Dropping the last character of joined parts drops the last character of the last part. */
  lemma {:induction false} JoinDropLast(parts: seq<string>)
    requires |parts| >= 1 && |Last(parts)| >= 1
    ensures |Join(parts)| >= 1
    ensures Join(parts)[..|Join(parts)| - 1] == Join(parts[..|parts| - 1] + [Last(parts)[..|Last(parts)| - 1]])
  {
    var trimmed := parts[..|parts| - 1] + [Last(parts)[..|Last(parts)| - 1]];
    if |parts| > 1 {
      var rest := parts[1..];
      JoinDropLast(rest);
      assert Last(rest) == Last(parts);
      assert trimmed[0] == parts[0];
      assert trimmed[1..] == rest[..|rest| - 1] + [Last(rest)[..|Last(rest)| - 1]];
      var j := Join(rest);
      assert Join(parts) == parts[0] + "." + j;
      assert Join(parts)[..|Join(parts)| - 1] == parts[0] + "." + j[..|j| - 1];
    }
  }

  /** Two or more joined parts end in the last part's last character, or in the
      separating dot when the last part is empty. */
  lemma {:induction false} JoinLastCharacter(parts: seq<string>)
    requires |parts| >= 2
    ensures |Join(parts)| >= 1
    ensures Join(parts)[|Join(parts)| - 1] == if |Last(parts)| == 0 then '.' else Last(parts)[|Last(parts)| - 1]
  {
    if |parts| > 2 {
      JoinLastCharacter(parts[1..]);
      assert Last(parts[1..]) == Last(parts);
    }
  }

  /** Dropping the last character keeps the parts dot-free and every non-final part in place. */
  lemma DropLastKeepsParts(parts: seq<string>)
    requires |parts| >= 1 && |Last(parts)| >= 1 && forall j :: 0 <= j < |parts| ==> '.' !in parts[j]
    ensures var trimmed := parts[..|parts| - 1] + [Last(parts)[..|Last(parts)| - 1]];
            && |trimmed| == |parts|
            && (forall j :: 0 <= j < |parts| - 1 ==> trimmed[j] == parts[j])
            && (forall j :: 0 <= j < |trimmed| ==> '.' !in trimmed[j])
  {
    var last := Last(parts)[..|Last(parts)| - 1];
    var trimmed := parts[..|parts| - 1] + [last];
    assert '.' !in last by {
      forall k | 0 <= k < |last| ensures last[k] != '.' {
        assert last[k] == Last(parts)[k];
      }
    }
    forall j | 0 <= j < |trimmed| ensures '.' !in trimmed[j] {
      if j < |parts| - 1 {
        assert trimmed[j] == parts[j];
      }
    }
  }

  /** A non-final label longer than 63 characters rejects the string, with or
      without a final newline. */
  lemma LongLabelRejected(parts: seq<string>, i: nat)
    requires |parts| >= 2 && forall j :: 0 <= j < |parts| ==> '.' !in parts[j]
    requires i < |parts| - 1 && |parts[i]| > MaxLabelLength
    ensures !IsDomainBody(Join(parts), PatternMinLabelLength)
    ensures !IsValid(Some(Join(parts)))
  {
    assert !IsDomainBody(Join(parts), PatternMinLabelLength) by {
      assert !IsLabel(parts[i], PatternMinLabelLength);
      DomainOfParts(parts, PatternMinLabelLength);
    }
    JoinLastCharacter(parts);
    var s := Join(parts);
    if |Last(parts)| >= 1 {
      assert !IsDomainBody(s[..|s| - 1], PatternMinLabelLength) by {
        var trimmed := parts[..|parts| - 1] + [Last(parts)[..|Last(parts)| - 1]];
        JoinDropLast(parts);
        assert s[..|s| - 1] == Join(trimmed);
        DropLastKeepsParts(parts);
        assert !IsLabel(trimmed[i], PatternMinLabelLength);
        assert !LabelsThenTld(trimmed, PatternMinLabelLength);
        DomainOfParts(trimmed, PatternMinLabelLength);
      }
    }
    NoBodyRejected(s);
  }

  /** A string that is no body, with or without its final newline, is rejected. */
  lemma NoBodyRejected(s: string)
    requires !IsDomainBody(s, PatternMinLabelLength)
    requires |s| >= 1 && s[|s| - 1] == '\n' ==> !IsDomainBody(s[..|s| - 1], PatternMinLabelLength)
    ensures !IsValid(Some(s))
  {
  }

  /** The "http://" and "https://" alternatives of the lookahead never decide
      anything: the colon they contain is already outside the alphabet. Only
      "www." needs the lookahead. */
  lemma HttpPrefixesAlreadyExcluded(s: string, minLabelLength: nat)
    requires StartsWith(s, "http://") || StartsWith(s, "https://")
    ensures !IsDomainBody(s, minLabelLength)
    ensures !IsDomainBody(s[..|s| - 1], minLabelLength)
  {
    var colon := if StartsWith(s, "http://") then 4 else 5;
    assert s[colon] == ':' by {
      if StartsWith(s, "http://") {
        assert s[..7][4] == ':';
      } else {
        assert s[..8][5] == ':';
      }
    }
    assert !IsDomainBody(s, minLabelLength) by {
      BodyIsWellFormed(s, minLabelLength);
      assert IsDomainBody(s, minLabelLength) ==> IsWellPlaced(s, colon);
    }
    var trimmed := s[..|s| - 1];
    assert trimmed[colon] == ':';
    BodyIsWellFormed(trimmed, minLabelLength);
    assert IsDomainBody(trimmed, minLabelLength) ==> IsWellPlaced(trimmed, colon);
  }

  /** A string that starts with neither 'h' nor 'w' has no excluded prefix. */
  lemma NoExcludedPrefix(s: string)
    requires |s| >= 1 && s[0] != 'h' && s[0] != 'w'
    ensures !HasExcludedPrefix(s)
  {
  }

  /** Labels and a top-level domain are accepted once joined, unless the joined
      string starts with an excluded prefix: the converse of `RejectedParts`. */
  lemma AcceptedParts(parts: seq<string>, minLabelLength: nat)
    requires |parts| >= 1 && forall i :: 0 <= i < |parts| ==> '.' !in parts[i]
    requires LabelsThenTld(parts, minLabelLength)
    requires !HasExcludedPrefix(Join(parts))
    ensures IsDomainBody(Join(parts), minLabelLength)
    ensures minLabelLength == PatternMinLabelLength ==> IsValid(Some(Join(parts)))
  {
    DomainOfParts(parts, minLabelLength);
  }

  /** Dot-free parts that are not labels and a top-level domain are rejected once
      joined, when they do not end in a newline. */
  lemma RejectedParts(parts: seq<string>)
    requires |parts| >= 2 && forall i :: 0 <= i < |parts| ==> '.' !in parts[i]
    requires !LabelsThenTld(parts, PatternMinLabelLength)
    requires |Last(parts)| >= 1 && Last(parts)[|Last(parts)| - 1] != '\n'
    ensures !IsValid(Some(Join(parts)))
  {
    DomainOfParts(parts, PatternMinLabelLength);
    JoinEndsWithLast(parts);
  }

  /** "www.example.com" has the form of a domain, and only the lookahead rejects it. */
  lemma WwwPrefixNeedsLookahead()
    ensures IsDomainBody("www.example.com", PatternMinLabelLength)
    ensures !IsValid(Some("www.example.com"))
  {
    var s := "www.example.com";
    assert s[..4] == "www.";
    assert HasExcludedPrefix(s);
    var parts := ["www", "example", "com"];
    assert forall i :: 0 <= i < |parts| ==> '.' !in parts[i];
    assert LabelsThenTld(parts, PatternMinLabelLength);
    assert Join(parts) == s;
    DomainOfParts(parts, PatternMinLabelLength);
  }

  /** The excluded prefixes are matched case-sensitively, so "WWW.example.com" is accepted. */
  lemma UpperCaseWwwAccepted()
    ensures IsValid(Some("WWW.example.com"))
  {
    var parts := ["WWW", "example", "com"];
    assert forall i :: 0 <= i < |parts| ==> '.' !in parts[i];
    assert LabelsThenTld(parts, PatternMinLabelLength);
    assert Join(parts) == "WWW.example.com";
    NoExcludedPrefix("WWW.example.com");
    AcceptedParts(parts, PatternMinLabelLength);
  }

  /** Any string of two or more letters is a top-level domain: there is no upper bound. */
  lemma TldHasNoUpperBound(tld: string)
    requires IsTld(tld)
    ensures IsValid(Some("example." + tld))
  {
    assert '.' !in tld by {
      forall i | 0 <= i < |tld| ensures tld[i] != '.' {
        assert IsAsciiLetter(tld[i]);
      }
    }
    assert Join(["example", tld]) == "example." + tld;
    NoExcludedPrefix("example." + tld);
    AcceptedParts(["example", tld], PatternMinLabelLength);
  }

  /** An accepted string ends in a letter (or a letter and a newline), so a digit
      or hyphen never ends the top-level domain. */
  lemma AcceptedEndsInLetter(s: string)
    requires IsValid(Some(s))
    ensures IsAsciiLetter(s[|s| - 1]) || (s[|s| - 1] == '\n' && |s| >= 2 && IsAsciiLetter(s[|s| - 2]))
  {
    AcceptedIsWellFormed(s);
  }

  /** A label and a top-level domain. */
  lemma AcceptsTestCom()
    ensures IsValid(Some("test.com"))
  {
    var parts := ["test", "com"];
    assert forall i :: 0 <= i < |parts| ==> '.' !in parts[i];
    assert LabelsThenTld(parts, PatternMinLabelLength);
    assert Join(parts) == "test.com";
    NoExcludedPrefix("test.com");
    AcceptedParts(parts, PatternMinLabelLength);
  }

  /** Several labels before the top-level domain. */
  lemma AcceptsSubdomain()
    ensures IsValid(Some("subdomain.example.net"))
  {
    var parts := ["subdomain", "example", "net"];
    assert forall i :: 0 <= i < |parts| ==> '.' !in parts[i];
    assert LabelsThenTld(parts, PatternMinLabelLength);
    assert Join(parts) == "subdomain.example.net";
    NoExcludedPrefix("subdomain.example.net");
    AcceptedParts(parts, PatternMinLabelLength);
  }

  /** Digits inside a label. */
  lemma AcceptsDigitsInLabel()
    ensures IsValid(Some("example123.co"))
  {
    var parts := ["example123", "co"];
    assert forall i :: 0 <= i < |parts| ==> '.' !in parts[i];
    assert LabelsThenTld(parts, PatternMinLabelLength);
    assert Join(parts) == "example123.co";
    NoExcludedPrefix("example123.co");
    AcceptedParts(parts, PatternMinLabelLength);
  }

  /** A hyphen inside a label. */
  lemma AcceptsHyphenInLabel()
    ensures IsValid(Some("valid-domain.co.uk"))
  {
    var parts := ["valid-domain", "co", "uk"];
    assert forall i :: 0 <= i < |parts| ==> '.' !in parts[i];
    assert LabelsThenTld(parts, PatternMinLabelLength);
    assert Join(parts) == "valid-domain.co.uk";
    NoExcludedPrefix("valid-domain.co.uk");
    AcceptedParts(parts, PatternMinLabelLength);
  }

  /** The rejected examples of the attribute's tests other than null and the empty
      string, the long label and the one-letter top-level domain. */
  lemma AttributeTestRejects()
    ensures !IsValid(Some("invalid_domain.com"))
    ensures !IsValid(Some("example@domain.com"))
    ensures !IsValid(Some("http://example.com"))
    ensures !IsValid(Some("-startshyphen.com"))
    ensures !IsValid(Some("endswithhyphen-.com"))
    ensures !IsValid(Some("double..dots.com"))
    ensures !IsValid(Some("space inname.com"))
  {
    ForeignCharacterRejected("invalid_domain.com", 7);
    ForeignCharacterRejected("example@domain.com", 7);
    ForeignCharacterRejected("http://example.com", 4);
    LeadingPunctuationRejected("-startshyphen.com");
    PunctuationPairRejected("endswithhyphen-.com", 14);
    PunctuationPairRejected("double..dots.com", 6);
    ForeignCharacterRejected("space inname.com", 5);
  }

  /** A one-letter top-level domain is rejected. */
  lemma RejectsShortTld()
    ensures !IsValid(Some("example.c"))
  {
    var parts := ["example", "c"];
    assert forall i :: 0 <= i < |parts| ==> '.' !in parts[i];
    assert !IsTld(Last(parts));
    assert Join(parts) == "example.c";
    RejectedParts(parts);
  }

  // The two places where the expression departs from what its authors evidently meant.

  /** As written, .NET's `$` lets one final newline through. */
  lemma TrailingNewlineAccepted()
    ensures IsValid(Some("test.com\n"))
    ensures !IsValidIntended(Some("test.com\n"))
  {
    assert "test.com\n"[..8] == "test.com";
    {
      var parts := ["test", "com"];
      assert forall i :: 0 <= i < |parts| ==> '.' !in parts[i];
      assert LabelsThenTld(parts, PatternMinLabelLength);
      assert Join(parts) == "test.com";
      NoExcludedPrefix("test.com");
      AcceptedParts(parts, PatternMinLabelLength);
    }
    NoExcludedPrefix("test.com\n");
    BodyIsWellFormed("test.com\n", RfcMinLabelLength);
  }

  /** As written, a one-character label such as the "a" of "a.com" is rejected,
      although the attribute's tests expect "a.com" to be valid. */
  lemma SingleCharacterLabelRejected()
    ensures !IsValid(Some("a.com"))
    ensures IsValidIntended(Some("a.com"))
  {
    var parts := ["a", "com"];
    assert forall i :: 0 <= i < |parts| ==> '.' !in parts[i];
    assert !IsLabel(parts[0], PatternMinLabelLength);
    assert LabelsThenTld(parts, RfcMinLabelLength);
    assert Join(parts) == "a.com";
    NoExcludedPrefix("a.com");
    RejectedParts(parts);
    AcceptedParts(parts, RfcMinLabelLength);
  }

  /** Labels of at least two characters are labels of at least one. */
  lemma RaisingLabelFloor(parts: seq<string>)
    ensures LabelsThenTld(parts, PatternMinLabelLength) ==> LabelsThenTld(parts, RfcMinLabelLength)
    ensures LabelsThenTld(parts, RfcMinLabelLength) && (forall i :: 0 <= i < |parts| - 1 ==> |parts[i]| >= 2) ==>
              LabelsThenTld(parts, PatternMinLabelLength)
  {
  }

  /** The intended validator accepts everything the expression accepts without a
      final newline. */
  lemma PatternAcceptedIsIntended(s: string)
    ensures IsValid(Some(s)) && s[|s| - 1] != '\n' ==> IsValidIntended(Some(s))
  {
    RaisingLabelFloor(Split(s));
  }

  /** The expression accepts everything the intended validator accepts that has no
      one-character label. */
  lemma IntendedAcceptedByPattern(s: string)
    ensures IsValidIntended(Some(s)) && (forall i :: 0 <= i < |Split(s)| - 1 ==> |Split(s)[i]| >= 2) ==>
              IsValid(Some(s))
  {
    RaisingLabelFloor(Split(s));
  }
}
