/** The recovery-code list of one user and the search-and-remove step that
    redeems a code: `indexOf` finds the first occurrence and `splice(index, 1)`
    cuts out exactly that entry. */
module RecoveryCodes {
  import opened Wrappers

  /** The index `indexOf` answers: the first position holding `token`, or
      -1 when the list does not hold it. */
  function FirstIndex(codes: seq<string>, token: string): (i: int)
    ensures -1 <= i < |codes|
    ensures i == -1 <==> token !in codes
    ensures 0 <= i ==> codes[i] == token && token !in codes[..i]
  {
    if codes == [] then -1
    else if codes[0] == token then 0
    else
      var k := FirstIndex(codes[1..], token);
      if k == -1 then -1
      else
        assert codes[..k + 1] == [codes[0]] + codes[1..][..k];
        k + 1
  }

  /** A position that holds `token` with no earlier occurrence is the one
      FirstIndex names. */
  lemma FirstIndexIsFirst(codes: seq<string>, token: string, i: int)
    requires 0 <= i < |codes| && codes[i] == token && token !in codes[..i]
    ensures FirstIndex(codes, token) == i
  {
  }

  /** Linear search, as `Array.prototype.indexOf`. */
  method IndexOf(codes: seq<string>, token: string) returns (index: int)
    ensures index == FirstIndex(codes, token)
  {
    index := 0;
    while index < |codes|
      invariant 0 <= index <= |codes|
      invariant token !in codes[..index]
    {
      if codes[index] == token {
        FirstIndexIsFirst(codes, token, index);
        return;
      }
      assert codes[..index + 1] == codes[..index] + [codes[index]];
      index := index + 1;
    }
    assert codes[..index] == codes;
    index := -1;
  }

  /** `splice(index, 1)`: the list without the entry at `index`. Every
      other entry stays, in its original order, and exactly one copy of the
      removed value is gone. */
  function Splice(codes: seq<string>, index: int): (rest: seq<string>)
    requires 0 <= index < |codes|
    ensures |rest| == |codes| - 1
    ensures forall j :: 0 <= j < index ==> rest[j] == codes[j]
    ensures forall j :: index <= j < |rest| ==> rest[j] == codes[j + 1]
    ensures multiset(rest) == multiset(codes) - multiset{codes[index]}
  {
    assert codes == codes[..index] + [codes[index]] + codes[index + 1..];
    codes[..index] + codes[index + 1..]
  }

  /** Redeeming `token`: None when the list does not hold it, otherwise the
      list with its first occurrence removed. */
  function Redeem(codes: seq<string>, token: string): (r: Option<seq<string>>)
    ensures r.None? <==> token !in codes
    ensures r.Some? ==> multiset(r.value) == multiset(codes) - multiset{token}
    ensures r.Some? ==> exists i :: 0 <= i < |codes| && codes[i] == token && token !in codes[..i] &&
                                    r.value == codes[..i] + codes[i + 1..]
  {
    var index := FirstIndex(codes, token);
    if index == -1 then None else Some(Splice(codes, index))
  }

  /** A code that occurs once is accepted once and refused afterwards. */
  lemma RedeemSingleUse(codes: seq<string>, token: string)
    requires multiset(codes)[token] == 1
    ensures Redeem(codes, token).Some?
    ensures Redeem(Redeem(codes, token).value, token).None?
  {
  }

  /** Redeeming one code leaves every other code redeemable. */
  lemma RedeemKeepsOthers(codes: seq<string>, token: string, other: string)
    requires other != token && other in codes
    ensures Redeem(codes, token).Some? ==> other in Redeem(codes, token).value
  {
  }

  /**
   * The number of copies of `token` in the list. It says what
   * `multiset(codes)[token]` says, by recursion on the list, so that each
   * induction step over redemptions stays an integer fact.
   */
  function Occurrences(codes: seq<string>, token: string): nat {
    if codes == [] then 0
    else (if codes[0] == token then 1 else 0) + Occurrences(codes[1..], token)
  }

  /** Occurrences counts exactly the multiplicity of the token. */
  lemma {:induction false} OccurrencesIsMultiplicity(codes: seq<string>, token: string)
    ensures Occurrences(codes, token) == multiset(codes)[token]
  {
    if codes != [] {
      assert codes == [codes[0]] + codes[1..];
      OccurrencesIsMultiplicity(codes[1..], token);
    }
  }

  /** One redemption either finds no copy of the token or removes exactly
      one copy of it. */
  lemma RedeemCount(codes: seq<string>, token: string)
    ensures Redeem(codes, token).None? ==> Occurrences(codes, token) == 0
    ensures Redeem(codes, token).Some? ==>
              Occurrences(Redeem(codes, token).value, token) == Occurrences(codes, token) - 1
  {
    OccurrencesIsMultiplicity(codes, token);
    if Redeem(codes, token).Some? {
      OccurrencesIsMultiplicity(Redeem(codes, token).value, token);
    }
  }

  /** The smaller of two counts. */
  function Min(a: nat, b: nat): nat {
    if a <= b then a else b
  }

  /** How many of `attempts` successive redemptions of the same token
      succeed, each one working on the list the previous one left. */
  function Successes(codes: seq<string>, token: string, attempts: nat): nat
    decreases attempts
  {
    if attempts == 0 then 0
    else match Redeem(codes, token)
      case None => Successes(codes, token, attempts - 1)
      case Some(rest) => 1 + Successes(rest, token, attempts - 1)
  }

  /** While the token is listed, an attempt succeeds and leaves one copy
      fewer for the attempts after it. */
  lemma SuccessesStep(codes: seq<string>, token: string, attempts: nat)
    requires attempts > 0 && Occurrences(codes, token) > 0
    ensures Redeem(codes, token).Some?
    ensures Successes(codes, token, attempts) == 1 + Successes(Redeem(codes, token).value, token, attempts - 1)
    ensures Occurrences(Redeem(codes, token).value, token) == Occurrences(codes, token) - 1
  {
    RedeemCount(codes, token);
  }

  /** A token that is not listed is never accepted. */
  lemma {:induction false} SuccessesAbsent(codes: seq<string>, token: string, attempts: nat)
    requires Occurrences(codes, token) == 0
    ensures Successes(codes, token, attempts) == 0
    decreases attempts
  {
    if attempts > 0 {
      OccurrencesIsMultiplicity(codes, token);
      SuccessesAbsent(codes, token, attempts - 1);
    }
  }

  /** One more successful attempt, with one more attempt and one more copy, keeps the count at the minimum. */
  lemma MinStep(s: nat, s': nat, a: nat, n: nat, n': nat)
    requires a > 0 && n > 0 && n' == n - 1 && s == 1 + s' && s' == Min(a - 1, n')
    ensures s == Min(a, n)
  {
  }

  /** A code can be redeemed exactly as many times as it occurs in the list,
      and no more however often it is presented. */
  lemma {:induction false} SuccessesAreMinOccurrences(codes: seq<string>, token: string, attempts: nat)
    ensures Successes(codes, token, attempts) == Min(attempts, Occurrences(codes, token))
    decreases attempts
  {
    if Occurrences(codes, token) == 0 {
      SuccessesAbsent(codes, token, attempts);
    } else if attempts > 0 {
      SuccessesStep(codes, token, attempts);
      var rest := Redeem(codes, token).value;
      SuccessesAreMinOccurrences(rest, token, attempts - 1);
      MinStep(Successes(codes, token, attempts), Successes(rest, token, attempts - 1),
              attempts, Occurrences(codes, token), Occurrences(rest, token));
    }
  }
}
