/**
 The client's input rules: the price band, the blank-nickname test (JavaScript
 `String.prototype.trim`), the administrator nickname and the plan check that
 `handlePlanSubmit` runs before anything is sent.
 */
module Validation {
  import opened Records

  const MinPrice: real := 250.0
  const MaxPrice: real := 350.0

  /** The one nickname that unlocks the draw (compared exactly, case-sensitive). */
  const AdminName: string := "shiwei"

  /** `validatePrice`: `Number(price) >= 250 && Number(price) <= 350`; NaN fails
      both comparisons. */
  predicate ValidatePrice(price: Price) {
    match price
    case None => false
    case Some(x) => x >= MinPrice && x <= MaxPrice
  }

  /** Both ends of the band are accepted, the neighbours outside it and NaN are not. */
  lemma PriceBandBoundaries()
    ensures ValidatePrice(Some(250.0)) && ValidatePrice(Some(350.0))
    ensures !ValidatePrice(Some(249.0)) && !ValidatePrice(Some(351.0))
    ensures !ValidatePrice(Some(249.99)) && !ValidatePrice(Some(350.01))
    ensures !ValidatePrice(None)
  {
  }

  /** The characters JavaScript's `trim` removes: WhiteSpace (tab, vertical tab,
      form feed, space, no-break space, byte order mark and the Zs category) and
      LineTerminator (LF, CR, LS, PS). */
  predicate IsWhitespace(c: char) {
    c in {'\t', '\U{000B}', '\U{000C}', ' ', '\U{00A0}', '\U{FEFF}',
          '\U{1680}', '\U{2000}', '\U{2001}', '\U{2002}', '\U{2003}', '\U{2004}',
          '\U{2005}', '\U{2006}', '\U{2007}', '\U{2008}', '\U{2009}', '\U{200A}',
          '\U{202F}', '\U{205F}', '\U{3000}',
          '\n', '\r', '\U{2028}', '\U{2029}'}
  }

  predicate AllWhitespace(s: string) {
    forall i :: 0 <= i < |s| ==> IsWhitespace(s[i])
  }

  /** Drops the leading whitespace: the result is the suffix of `s` that starts
      at its first non-whitespace character. */
  function TrimStart(s: string): (r: string)
    ensures |r| <= |s| && r == s[|s| - |r|..]
    ensures AllWhitespace(s[..|s| - |r|])
    ensures r == [] || !IsWhitespace(r[0])
  {
    if s != [] && IsWhitespace(s[0]) then
      var r := TrimStart(s[1..]);
      assert s[..|s| - |r|] == [s[0]] + s[1..][..|s[1..]| - |r|];
      r
    else
      s
  }

  /** Drops the trailing whitespace: the result is the prefix of `s` that ends
      at its last non-whitespace character. */
  function TrimEnd(s: string): (r: string)
    ensures |r| <= |s| && r == s[..|r|]
    ensures AllWhitespace(s[|r|..])
    ensures r == [] || !IsWhitespace(r[|r| - 1])
  {
    if s != [] && IsWhitespace(s[|s| - 1]) then
      var r := TrimEnd(s[..|s| - 1]);
      assert s[|r|..] == s[..|s| - 1][|r|..] + [s[|s| - 1]];
      r
    else
      s
  }

  /** `s.trim()`: both ends stripped, so the result is empty or starts and ends
      with a non-whitespace character. */
  function Trim(s: string): (r: string)
    ensures |r| <= |s|
    ensures r == [] || (!IsWhitespace(r[0]) && !IsWhitespace(r[|r| - 1]))
  {
    TrimEnd(TrimStart(s))
  }

  /** `!s.trim()`: a nickname is blank exactly when it is made of whitespace only;
      a non-blank trim keeps a middle slice of `s` with non-whitespace ends. */
  lemma {:induction false} TrimEmptyIffAllWhitespace(s: string)
    ensures Trim(s) == [] <==> AllWhitespace(s)
    ensures Trim(s) != [] ==>
      exists a, b :: 0 <= a < b <= |s| && Trim(s) == s[a..b] &&
        !IsWhitespace(s[a]) && !IsWhitespace(s[b - 1])
  {
    var t := TrimStart(s);
    var a := |s| - |t|;
    var u := TrimEnd(t);
    if u == [] {
      assert t == [] && a == |s|;
      forall i | 0 <= i < |s| ensures IsWhitespace(s[i]) {
        assert s[i] == s[..a][i];
      }
    } else {
      assert t != [] && !IsWhitespace(t[0]) && t[0] == s[a];
      assert !AllWhitespace(s);
      assert u == s[a..a + |u|] && s[a + |u| - 1] == u[|u| - 1];
    }
  }

  /** `handleLogin`'s role rule: exact equality with the administrator nickname. */
  predicate IsAdminNickname(nickname: string) {
    nickname == AdminName
  }

  lemma AdminIsExactMatch()
    ensures IsAdminNickname("shiwei")
    ensures !IsAdminNickname("Shiwei") && !IsAdminNickname(" shiwei") && !IsAdminNickname("shiwei ")
  {
  }

  predicate AllGamesNamed(planA: Plan, planB: Plan) {
    planA.firstGame != "" && planA.secondGame != "" && planB.firstGame != "" && planB.secondGame != ""
  }

  /** The two checks of `handlePlanSubmit`, in source order: the four game names
      first, then both prices. `None` means the submission may be sent. */
  function CheckPlans(planA: Plan, planB: Plan): (r: Option<Notice>)
    ensures r == None || r == Some(MissingGameName) || r == Some(PriceOutOfRange)
  {
    if !AllGamesNamed(planA, planB) then Some(MissingGameName)
    else if !ValidatePrice(planA.price) || !ValidatePrice(planB.price) then Some(PriceOutOfRange)
    else None
  }

  /** The plan check accepts exactly the pairs with four game names and two prices
      in the band; a missing name is reported even when a price is also wrong. */
  lemma CheckPlansVerdicts(planA: Plan, planB: Plan)
    ensures CheckPlans(planA, planB) == None <==>
      AllGamesNamed(planA, planB) && ValidatePrice(planA.price) && ValidatePrice(planB.price)
    ensures CheckPlans(planA, planB) == Some(MissingGameName) <==> !AllGamesNamed(planA, planB)
    ensures CheckPlans(planA, planB) == Some(PriceOutOfRange) <==>
      AllGamesNamed(planA, planB) && !(ValidatePrice(planA.price) && ValidatePrice(planB.price))
  {
  }
}
