/**
 * Role categories: every role code falls into goalkeeper, defence, midfield or attack, by its
 * upper-cased text.
 */
module PlayerUtils {

  datatype RoleCategory = GK | DEF | MID | FWD

  const DefenderCodes: seq<string> := ["CB", "LCB", "RCB", "LB", "RB", "LWB", "RWB"]
  const ForwardCodes: seq<string> := ["ST", "CF", "LW", "RW", "SS"]

  // ---------------------------------------------------------------------------------------
  // Upper case

  /**
   * `c.toUpperCase()` for the ASCII letters and for the characters whose upper case is made of
   * ASCII letters: dotless i, long s, sharp s (two letters) and the Latin ligatures U+FB00 to
   * U+FB06. Every other character is kept as it is.
   */
  function UpperOfChar(c: char): string {
    if 'a' <= c <= 'z' then [(c as int - 32) as char]
    else if c == 'ı' then "I"
    else if c == 'ſ' then "S"
    else if c == 'ß' then "SS"
    else if c == 'ﬀ' then "FF"
    else if c == 'ﬁ' then "FI"
    else if c == 'ﬂ' then "FL"
    else if c == 'ﬃ' then "FFI"
    else if c == 'ﬄ' then "FFL"
    else if c == 'ﬅ' || c == 'ﬆ' then "ST"
    else [c]
  }

  /**
   * `s.toUpperCase()`, character by character. Every character gives one to three
   * characters, so the result is never shorter and at most three times as long.
   */
  function ToUpper(s: string): (r: string)
    ensures |s| <= |r| <= 3 * |s|
    decreases |s|
  {
    if s == [] then [] else UpperOfChar(s[0]) + ToUpper(s[1..])
  }

  lemma {:induction false} ToUpperAppend(a: string, b: string)
    ensures ToUpper(a + b) == ToUpper(a) + ToUpper(b)
    decreases |a|
  {
    if a == [] {
      assert a + b == b;
    } else {
      assert (a + b)[0] == a[0] && (a + b)[1..] == a[1..] + b;
      ToUpperAppend(a[1..], b);
    }
  }

  lemma ToUpperSingle(c: char)
    ensures ToUpper([c]) == UpperOfChar(c)
  {
    assert [c][1..] == [];
  }

  predicate IsCapitals(s: string) {
    forall i | 0 <= i < |s| :: 'A' <= s[i] <= 'Z'
  }

  /** Capital ASCII letters are their own upper case. */
  lemma {:induction false} ToUpperOfCapitals(s: string)
    requires IsCapitals(s)
    ensures ToUpper(s) == s
    decreases |s|
  {
    if s != [] {
      assert IsCapitals(s[1..]) by {
        forall i | 0 <= i < |s[1..]| ensures 'A' <= s[1..][i] <= 'Z' {
          assert s[1..][i] == s[i + 1];
        }
      }
      ToUpperOfCapitals(s[1..]);
    }
  }

  /** Upper-casing the upper case of one character changes nothing. */
  lemma UpperOfCharIsUpper(c: char)
    ensures ToUpper(UpperOfChar(c)) == UpperOfChar(c)
  {
    var u := UpperOfChar(c);
    if IsCapitals(u) {
      ToUpperOfCapitals(u);
    } else {
      assert u == [c];
      ToUpperSingle(c);
    }
  }

  /** Upper-casing is idempotent. */
  lemma {:induction false} ToUpperIdempotent(s: string)
    ensures ToUpper(ToUpper(s)) == ToUpper(s)
    decreases |s|
  {
    if s != [] {
      ToUpperAppend(UpperOfChar(s[0]), ToUpper(s[1..]));
      UpperOfCharIsUpper(s[0]);
      ToUpperIdempotent(s[1..]);
    }
  }

  // ---------------------------------------------------------------------------------------
  // Classification

  /**
   * The category of a role: `GK` for the goalkeeper code, `DEF` for a defender code, `FWD` for
   * a forward code, `MID` for everything else (the empty role included), all compared after
   * upper-casing.
   */
  function GetRoleCategory(role: string): (cat: RoleCategory)
    ensures cat == GK <==> ToUpper(role) == "GK"
    ensures cat == DEF <==> ToUpper(role) in DefenderCodes
    ensures cat == FWD <==> ToUpper(role) in ForwardCodes
    ensures cat == MID <==> ToUpper(role) != "GK" && ToUpper(role) !in DefenderCodes && ToUpper(role) !in ForwardCodes
  {
    var upperRole := ToUpper(role);
    if upperRole == "GK" then GK
    else if upperRole in DefenderCodes then DEF
    else if upperRole in ForwardCodes then FWD
    else MID
  }

  /** The category depends only on the upper-cased role. */
  lemma CategoryOfUpperCase(role: string)
    ensures GetRoleCategory(ToUpper(role)) == GetRoleCategory(role)
  {
    ToUpperIdempotent(role);
  }

  /** ASCII case folding: a lower-case ASCII letter to its capital, anything else unchanged. */
  function AsciiFold(c: char): char {
    if 'a' <= c <= 'z' then (c as int - 32) as char else c
  }

  /** Equal up to the case of ASCII letters. */
  predicate EqualIgnoringAsciiCase(a: string, b: string) {
    |a| == |b| && forall i | 0 <= i < |a| :: AsciiFold(a[i]) == AsciiFold(b[i])
  }

  /** Two roles that differ only in the case of ASCII letters have the same upper case. */
  lemma {:induction false} CaseVariantsUpperAlike(a: string, b: string)
    requires EqualIgnoringAsciiCase(a, b)
    ensures ToUpper(a) == ToUpper(b)
    decreases |a|
  {
    if a != [] {
      assert AsciiFold(a[0]) == AsciiFold(b[0]);
      assert UpperOfChar(a[0]) == UpperOfChar(b[0]);
      assert EqualIgnoringAsciiCase(a[1..], b[1..]) by {
        forall i | 0 <= i < |a[1..]| ensures AsciiFold(a[1..][i]) == AsciiFold(b[1..][i]) {
          assert a[1..][i] == a[i + 1] && b[1..][i] == b[i + 1];
        }
      }
      CaseVariantsUpperAlike(a[1..], b[1..]);
    }
  }

  /** The classification is case-insensitive. */
  lemma CaseVariantsAgree(a: string, b: string)
    requires EqualIgnoringAsciiCase(a, b)
    ensures GetRoleCategory(a) == GetRoleCategory(b)
  {
    CaseVariantsUpperAlike(a, b);
  }

  predicate IsAscii(s: string) {
    forall i | 0 <= i < |s| :: s[i] as int < 128
  }

  /** On ASCII text, upper-casing is folding each character. */
  lemma {:induction false} AsciiToUpper(s: string)
    requires IsAscii(s)
    ensures |ToUpper(s)| == |s| && forall i | 0 <= i < |s| :: ToUpper(s)[i] == AsciiFold(s[i])
    decreases |s|
  {
    if s != [] {
      assert IsAscii(s[1..]) by {
        forall i | 0 <= i < |s[1..]| ensures s[1..][i] as int < 128 {
          assert s[1..][i] == s[i + 1];
        }
      }
      AsciiToUpper(s[1..]);
      assert ToUpper(s) == [AsciiFold(s[0])] + ToUpper(s[1..]);
    }
  }

  /** An ASCII role is the goalkeeper exactly when it spells "GK" in any mix of cases. */
  lemma AsciiGoalkeeper(role: string)
    requires IsAscii(role)
    ensures GetRoleCategory(role) == GK <==> EqualIgnoringAsciiCase(role, "GK")
  {
    AsciiToUpper(role);
    if EqualIgnoringAsciiCase(role, "GK") {
      assert ToUpper(role) == "GK";
    }
  }

  /** Characters outside ASCII can reach a code too: sharp s upper-cases to "SS", a forward. */
  lemma NonAsciiForwards()
    ensures GetRoleCategory("ß") == FWD
    ensures GetRoleCategory("ﬆ") == FWD
    ensures GetRoleCategory("ſt") == FWD
  {
    ToUpperSingle('ß');
    ToUpperSingle('ﬆ');
    ToUpperSingle('t');
    ToUpperAppend("ſ", "t");
    ToUpperSingle('ſ');
    assert "ſ" + "t" == "ſt";
    assert ToUpper("ſt") == "S" + "T" == "ST";
    assert ForwardCodes[0] == "ST";
  }

  // ---------------------------------------------------------------------------------------
  // Colours

  const CategoryColors: map<RoleCategory, string> := map[
    GK := "bg-yellow-500/10 border-yellow-500/30 text-yellow-600",
    DEF := "bg-blue-500/10 border-blue-500/30 text-blue-500",
    MID := "bg-green-500/10 border-green-500/30 text-green-500",
    FWD := "bg-red-500/10 border-red-500/30 text-red-500"
  ]

  /** Every category has a colour, and no two categories share one. */
  lemma CategoryColorsComplete()
    ensures forall c: RoleCategory :: c in CategoryColors
    ensures forall c, d | c in CategoryColors && d in CategoryColors && c != d :: CategoryColors[c] != CategoryColors[d]
  {
    forall c: RoleCategory ensures c in CategoryColors {
      match c
      case GK =>
      case DEF =>
      case MID =>
      case FWD =>
    }
  }
}
