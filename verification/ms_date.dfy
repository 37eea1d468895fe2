/** The platform's `/Date(<ms>)/` timestamps and the decoder
    `deserialize_ms_date` applies to them. */
module MsDate {
  import opened Wrappers
  import opened Ints
  import opened Decimal

  const DatePrefix: string := "/Date("
  const DateSuffix: string := ")/"

  predicate StartsWith(s: string, pat: string)
  {
    |pat| <= |s| && s[..|pat|] == pat
  }

  predicate EndsWith(s: string, pat: string)
  {
    |pat| <= |s| && s[|s| - |pat|..] == pat
  }

  /** The text is zero or more whole copies of the pattern, back to back. */
  predicate Repeats(t: string, pat: string)
    decreases |t|
  {
    t == [] || (|pat| > 0 && StartsWith(t, pat) && Repeats(t[|pat|..], pat))
  }

  /** One more copy of the pattern after copies of it is still copies of it. */
  lemma {:induction false} RepeatsAppend(t: string, pat: string)
    requires |pat| > 0 && Repeats(t, pat)
    ensures Repeats(t + pat, pat)
    decreases |t|
  {
    var u := t + pat;
    if t == [] {
      assert u == pat && u[|pat|..] == [];
    } else {
      assert u[..|pat|] == t[..|pat|];
      assert u[|pat|..] == t[|pat|..] + pat;
      RepeatsAppend(t[|pat|..], pat);
    }
  }

  /** `str::trim_start_matches`: strips every repeated occurrence of a
      non-empty pattern from the front; an empty pattern strips nothing. */
  function TrimStartMatches(s: string, pat: string): (r: string)
    ensures |r| <= |s| && r == s[|s| - |r|..]
    ensures Repeats(s[..|s| - |r|], pat)
    ensures |pat| > 0 ==> !StartsWith(r, pat)
    ensures |pat| == 0 ==> r == s
    decreases |s|
  {
    if |pat| > 0 && StartsWith(s, pat) then
      var t := s[|pat|..];
      var r := TrimStartMatches(t, pat);
      assert s[..|s| - |r|][..|pat|] == s[..|pat|];
      assert s[..|s| - |r|][|pat|..] == t[..|t| - |r|];
      r
    else
      s
  }

  /** `str::trim_end_matches`: strips every repeated occurrence of a
      non-empty pattern from the back; an empty pattern strips nothing. */
  function TrimEndMatches(s: string, pat: string): (r: string)
    ensures |r| <= |s| && r == s[..|r|]
    ensures Repeats(s[|r|..], pat)
    ensures |pat| > 0 ==> !EndsWith(r, pat)
    ensures |pat| == 0 ==> r == s
    decreases |s|
  {
    if |pat| > 0 && EndsWith(s, pat) then
      var t := s[..|s| - |pat|];
      var r := TrimEndMatches(t, pat);
      RepeatsAppend(t[|r|..], pat);
      assert s[|r|..] == t[|r|..] + pat;
      r
    else
      s
  }

  predicate IsSeparator(c: char)
  {
    c == '+' || c == '-'
  }

  /** `s.split(|c| c == '+' || c == '-').next()`: the text before the first
      '+' or '-', or all of it. Split always yields a first piece, so the
      `unwrap` after `next` never fails. */
  function FirstPiece(s: string): (r: string)
    ensures |r| <= |s| && r == s[..|r|]
    ensures forall i :: 0 <= i < |r| ==> !IsSeparator(r[i])
    ensures |r| < |s| ==> IsSeparator(s[|r|])
  {
    if s == [] || IsSeparator(s[0]) then [] else [s[0]] + FirstPiece(s[1..])
  }

  /** The text `deserialize_ms_date` hands to `parse::<i64>`. */
  function MillisText(s: string): (r: string)
    ensures |r| <= |s|
    ensures forall i :: 0 <= i < |r| ==> !IsSeparator(r[i])
  {
    FirstPiece(TrimEndMatches(TrimStartMatches(s, DatePrefix), DateSuffix))
  }

  /** `deserialize_ms_date` up to the conversion to an instant: the
      milliseconds since the epoch, or None where either `unwrap` panics.
      The piece it parses holds no sign, so only a non-empty run of digits
      no larger than i64::MAX is accepted, and no timestamp is negative. */
  function DecodeMsDate(s: string): (r: Option<int>)
    ensures r.Some? <==> |MillisText(s)| > 0 && AllDigits(MillisText(s)) && DigitsValue(MillisText(s)) <= I64Max
    ensures r.Some? ==> r.value == DigitsValue(MillisText(s))
  {
    ParseInt(MillisText(s), I64Min, I64Max)
  }

  /** A character of a text that ends with the pattern lies before that
      last copy of it or is the pattern's character at the same offset. */
  lemma EndsWithAt(s: string, pat: string, j: nat)
    requires EndsWith(s, pat) && j < |s|
    ensures j < |s| - |pat| || s[j] == pat[j - (|s| - |pat|)]
  {
    var n := |s| - |pat|;
    if n <= j {
      assert s[n..][j - n] == s[j];
    }
  }

  /** Trimming from the back never reaches past a character that does not
      occur in the pattern. */
  lemma {:induction false} TrimEndStopsAt(s: string, pat: string, k: nat)
    requires 0 < k <= |s|
    requires forall i :: 0 <= i < |pat| ==> pat[i] != s[k - 1]
    ensures k <= |TrimEndMatches(s, pat)|
  {
    if |pat| > 0 && EndsWith(s, pat) {
      var n := |s| - |pat|;
      EndsWithAt(s, pat, k - 1);
      var t := s[..n];
      assert t[k - 1] == s[k - 1];
      TrimEndStopsAt(t, pat, k);
    }
  }

  /** The first piece of a text whose separator-free head is followed by
      a separator is that head. */
  lemma FirstPieceOfHead(w: string, head: string)
    requires |head| < |w| && forall i :: 0 <= i < |head| ==> w[i] == head[i]
    requires forall i :: 0 <= i < |head| ==> !IsSeparator(head[i])
    requires IsSeparator(w[|head|])
    ensures FirstPiece(w) == head
  {
  }

  /** Stripping the prefix from a text whose rest does not start with '/'
      strips exactly one copy. */
  lemma TrimDatePrefix(t: string)
    requires |t| > 0 && t[0] != '/'
    ensures TrimStartMatches(DatePrefix + t, DatePrefix) == t
  {
    var s := DatePrefix + t;
    assert StartsWith(s, DatePrefix);
    assert s[|DatePrefix|..] == t;
    if |DatePrefix| <= |t| {
      assert t[..|DatePrefix|][0] == t[0];
    }
  }

  /** A plain run of digits parses as an i64 to its value when that fits. */
  lemma ParseDigits(digits: string)
    requires |digits| > 0 && AllDigits(digits) && DigitsValue(digits) <= I64Max
    ensures ParseInt(digits, I64Min, I64Max) == Some(DigitsValue(digits))
  {
    assert !IsSign(digits[0]);
  }

  /** A separator-free text is its own first piece. */
  lemma {:induction false} FirstPieceAll(s: string)
    requires forall i :: 0 <= i < |s| ==> !IsSeparator(s[i])
    ensures FirstPiece(s) == s
  {
    if s != [] {
      FirstPieceAll(s[1..]);
    }
  }

  lemma MillisTextPlain(digits: string)
    requires |digits| > 0 && AllDigits(digits)
    ensures MillisText(DatePrefix + digits + DateSuffix) == digits
  {
    var u := digits + DateSuffix;
    assert DatePrefix + digits + DateSuffix == DatePrefix + u;
    TrimDatePrefix(u);
    assert EndsWith(u, DateSuffix) && u[..|u| - |DateSuffix|] == digits;
    assert !EndsWith(digits, DateSuffix) by {
      if |DateSuffix| <= |digits| {
        assert digits[|digits| - 2..][1] == digits[|digits| - 1];
      }
    }
    assert TrimEndMatches(u, DateSuffix) == digits;
    FirstPieceAll(digits);
  }

  /** Trimming from the back keeps a head whose last character does not
      occur in the pattern. */
  lemma TrimEndKeepsHead(head: string, rest: string, pat: string)
    requires |head| > 0
    requires forall i :: 0 <= i < |pat| ==> pat[i] != head[|head| - 1]
    ensures |head| <= |TrimEndMatches(head + rest, pat)|
    ensures forall i :: 0 <= i < |head| ==> TrimEndMatches(head + rest, pat)[i] == head[i]
  {
    var t := head + rest;
    assert t[|head| - 1] == head[|head| - 1];
    TrimEndStopsAt(t, pat, |head|);
    var w := TrimEndMatches(t, pat);
    assert w[..|head|] == t[..|head|];
    assert t[..|head|] == head;
  }

  /** After a prefix that is stripped exactly once, the text to parse is
      the first piece of the rest trimmed from the back. */
  lemma MillisTextAfterPrefix(t: string)
    requires |t| > 0 && IsDigit(t[0])
    ensures MillisText(DatePrefix + t) == FirstPiece(TrimEndMatches(t, DateSuffix))
  {
    TrimDatePrefix(t);
  }

  /** Trimming the suffix from the back leaves a head of digits and a
      separator in place, so the first piece is those digits. */
  lemma FirstPieceOfTrimmed(digits: string, sign: char, rest: string)
    requires |digits| > 0 && AllDigits(digits)
    requires IsSeparator(sign)
    ensures FirstPiece(TrimEndMatches(digits + [sign] + rest, DateSuffix)) == digits
  {
    var head := digits + [sign];
    TrimEndKeepsHead(head, rest, DateSuffix);
    var w := TrimEndMatches(head + rest, DateSuffix);
    assert w[|digits|] == sign by {
      assert w[|digits|] == head[|digits|];
    }
    assert forall i :: 0 <= i < |digits| ==> w[i] == digits[i] by {
      forall i | 0 <= i < |digits|
        ensures w[i] == digits[i]
      {
        assert w[i] == head[i];
      }
    }
    assert forall i :: 0 <= i < |digits| ==> !IsSeparator(digits[i]);
    FirstPieceOfHead(w, digits);
  }

  lemma MillisTextAfterHead(digits: string, sign: char, rest: string)
    requires |digits| > 0 && AllDigits(digits)
    requires IsSeparator(sign)
    ensures MillisText(DatePrefix + (digits + [sign] + rest)) == digits
  {
    var t := digits + [sign] + rest;
    assert t[0] == digits[0];
    MillisTextAfterPrefix(t);
    FirstPieceOfTrimmed(digits, sign, rest);
  }

  lemma MillisTextOffset(digits: string, sign: char, offset: string)
    requires |digits| > 0 && AllDigits(digits)
    requires IsSeparator(sign)
    ensures MillisText(DatePrefix + digits + [sign] + offset + DateSuffix) == digits
  {
    var rest := offset + DateSuffix;
    assert DatePrefix + digits + [sign] + offset + DateSuffix == DatePrefix + (digits + [sign] + rest);
    MillisTextAfterHead(digits, sign, rest);
  }

  /** `/Date(<digits>)/` decodes to the value of the digits. */
  lemma DecodePlain(digits: string)
    requires |digits| > 0 && AllDigits(digits) && DigitsValue(digits) <= I64Max
    ensures DecodeMsDate(DatePrefix + digits + DateSuffix) == Some(DigitsValue(digits))
  {
    MillisTextPlain(digits);
    ParseDigits(digits);
  }

  /** `/Date(<digits>+<offset>)/` and `/Date(<digits>-<offset>)/` decode to
      the value of the digits: whatever follows the sign is ignored. */
  lemma DecodeWithOffset(digits: string, sign: char, offset: string)
    requires |digits| > 0 && AllDigits(digits) && DigitsValue(digits) <= I64Max
    requires IsSeparator(sign)
    ensures DecodeMsDate(DatePrefix + digits + [sign] + offset + DateSuffix) == Some(DigitsValue(digits))
  {
    MillisTextOffset(digits, sign, offset);
    ParseDigits(digits);
  }

  /** For every non-negative i64, decoding its `/Date(...)/` rendering
      gives it back. */
  lemma DecodeRoundTrip(ms: nat)
    requires ms <= I64Max
    ensures DecodeMsDate(DatePrefix + ToDecimal(ms) + DateSuffix) == Some(ms)
  {
    ToDecimalValue(ms);
    DecodePlain(ToDecimal(ms));
  }

  /** A negative timestamp has an empty first piece, so the decoder
      panics on it: `/Date(-5)/` has no result. */
  lemma {:induction false} DecodeRejectsLeadingSign(sign: char, rest: string)
    requires IsSeparator(sign)
    ensures DecodeMsDate(DatePrefix + [sign] + rest).None?
  {
    var t := [sign] + rest;
    assert DatePrefix + [sign] + rest == DatePrefix + t;
    TrimDatePrefix(t);
    TrimEndStopsAt(t, DateSuffix, 1);
    var w := TrimEndMatches(t, DateSuffix);
    assert w[0] == sign;
  }

  /** A timestamp with no digits before its end, such as `/Date()/`, has
      no result. */
  lemma DecodeRejectsEmpty()
    ensures DecodeMsDate(DatePrefix + DateSuffix).None?
  {
    var s := DatePrefix + DateSuffix;
    assert StartsWith(s, DatePrefix) && s[|DatePrefix|..] == DateSuffix;
    assert TrimStartMatches(s, DatePrefix) == DateSuffix;
    assert EndsWith(DateSuffix, DateSuffix) && DateSuffix[..0] == [];
    assert TrimEndMatches(DateSuffix, DateSuffix) == [];
  }
}
