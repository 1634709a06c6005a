/** A contact record (main.py lines 19-44): a name and an ordered list of phones,
    duplicates allowed. The list is kept as the sequence of the phones' values;
    the position of a phone in it stands for the Phone object itself. */
module Records {
  import opened Wrappers
  import opened Fields

  /* ---------- The phone list as a value ---------- */

  /** Position of the first phone equal to `n`, or None when no phone is. */
  function FirstIndex(phones: seq<string>, n: string): (r: Option<nat>)
    ensures r.None? <==> n !in phones
    ensures r.Some? ==> r.value < |phones| && phones[r.value] == n
    ensures r.Some? ==> forall j :: 0 <= j < r.value ==> phones[j] != n
  {
    if phones == [] then None
    else if phones[0] == n then Some(0)
    else
      match FirstIndex(phones[1..], n)
      case None => None
      case Some(i) => Some(i + 1)
  }

  /** The list without its first phone equal to `n`; the same list when there is none. */
  function RemoveFirst(phones: seq<string>, n: string): (r: seq<string>)
    ensures |r| == if n in phones then |phones| - 1 else |phones|
    ensures multiset(r) == multiset(phones) - multiset{n}
  {
    if phones == [] then []
    else
      assert phones == [phones[0]] + phones[1..];
      if phones[0] == n then phones[1..]
      else [phones[0]] + RemoveFirst(phones[1..], n)
  }

  /** The list with its first phone equal to `target` replaced by `replacement`. */
  function ReplaceFirst(phones: seq<string>, target: string, replacement: string): (r: seq<string>)
    ensures |r| == |phones|
    ensures target !in phones ==> r == phones
    ensures target in phones ==>
      multiset(r) == multiset(phones) - multiset{target} + multiset{replacement}
  {
    if phones == [] then []
    else
      assert phones == [phones[0]] + phones[1..];
      if phones[0] == target then [replacement] + phones[1..]
      else [phones[0]] + ReplaceFirst(phones[1..], target, replacement)
  }

  /** Every phone in the list is well formed. */
  predicate AllValid(phones: seq<string>) {
    forall i :: 0 <= i < |phones| ==> ValidPhone(phones[i])
  }

  /** Removal deletes exactly the element at the first match and keeps the rest in order. */
  lemma {:induction false} RemoveFirstAt(phones: seq<string>, n: string, i: nat)
    requires i < |phones| && phones[i] == n
    requires forall j :: 0 <= j < i ==> phones[j] != n
    ensures RemoveFirst(phones, n) == phones[..i] + phones[i + 1..]
  {
    if i == 0 {
      assert phones[..0] + phones[1..] == phones[1..];
    } else {
      var tail := phones[1..];
      calc {
        RemoveFirst(phones, n);
        [phones[0]] + RemoveFirst(tail, n);
        { RemoveFirstAt(tail, n, i - 1); }
        [phones[0]] + (tail[..i - 1] + tail[i..]);
        { assert [phones[0]] + tail[..i - 1] == phones[..i]; assert tail[i..] == phones[i + 1..]; }
        phones[..i] + phones[i + 1..];
      }
    }
  }

  /** Removing a number that is not there changes nothing. */
  lemma {:induction false} RemoveFirstAbsent(phones: seq<string>, n: string)
    requires n !in phones
    ensures RemoveFirst(phones, n) == phones
  {
    if phones != [] {
      RemoveFirstAbsent(phones[1..], n);
      assert [phones[0]] + phones[1..] == phones;
    }
  }

  /** Replacement rewrites exactly the position of the first match. */
  lemma {:induction false} ReplaceFirstAt(phones: seq<string>, target: string, replacement: string, i: nat)
    requires i < |phones| && phones[i] == target
    requires forall j :: 0 <= j < i ==> phones[j] != target
    ensures ReplaceFirst(phones, target, replacement) == phones[i := replacement]
  {
    if i > 0 {
      ReplaceFirstAt(phones[1..], target, replacement, i - 1);
    }
  }

  /** After an edit of a present number the new number can be found; the old one is
      gone only when it occurred once; and when the new number was not in the list
      before, it is found at the position the old one had. */
  lemma ReplaceFirstThenFind(phones: seq<string>, target: string, replacement: string)
    requires target in phones
    ensures replacement in ReplaceFirst(phones, target, replacement)
    ensures multiset(phones)[target] == 1 && target != replacement ==>
      target !in ReplaceFirst(phones, target, replacement)
    ensures replacement !in phones ==>
      FirstIndex(ReplaceFirst(phones, target, replacement), replacement) == FirstIndex(phones, target)
  {
    var r := ReplaceFirst(phones, target, replacement);
    assert multiset(r)[replacement] > 0;
    if multiset(phones)[target] == 1 && target != replacement {
      assert multiset(r)[target] == 0;
    }
    ReplaceFirstAt(phones, target, replacement, FirstIndex(phones, target).value);
  }

  /** With the number present twice, an edit leaves the second occurrence findable. */
  lemma EditLeavesLaterDuplicate()
    ensures FirstIndex(ReplaceFirst(["1234567890", "1234567890"], "1234567890", "1112223333"),
                       "1234567890") == Some(1)
  {
  }

  /** Removing a phone keeps a list of well-formed phones well formed. */
  lemma RemoveFirstKeepsValid(phones: seq<string>, n: string)
    requires AllValid(phones)
    ensures AllValid(RemoveFirst(phones, n))
  {
  }

  /** Replacing with a well-formed number keeps a list of well-formed phones well formed. */
  lemma ReplaceFirstKeepsValid(phones: seq<string>, target: string, replacement: string)
    requires AllValid(phones) && ValidPhone(replacement)
    ensures AllValid(ReplaceFirst(phones, target, replacement))
  {
  }

  /** Replacing without a check can put a malformed number into a well-formed list. */
  lemma UncheckedEditAdmitsInvalid()
    ensures AllValid(["1234567890"])
    ensures !AllValid(ReplaceFirst(["1234567890"], "1234567890", "12345"))
  {
    assert ReplaceFirst(["1234567890"], "1234567890", "12345")[0] == "12345";
  }

  /* ---------- Rendering ---------- */

  const NameLabel: string := "Contact name: "
  const PhonesLabel: string := ", phones: "
  const Separator: string := "; "

  /** Total number of characters in the phones' values. */
  function TotalLength(phones: seq<string>): nat {
    if phones == [] then 0 else |phones[0]| + TotalLength(phones[1..])
  }

  /** `'; '.join(...)` over the phones' values: every character of every phone, and
      one separator between each two neighbours. */
  function JoinPhones(phones: seq<string>): (r: string)
    ensures |r| == TotalLength(phones) + if phones == [] then 0 else |Separator| * (|phones| - 1)
    ensures |phones| == 1 ==> r == phones[0]
  {
    if |phones| == 0 then ""
    else if |phones| == 1 then phones[0]
    else phones[0] + Separator + JoinPhones(phones[1..])
  }

  /** Joining one more phone appends a separator and that phone, whatever the
      phones' lengths: the joined text lists the phones in order. */
  lemma {:induction false} JoinPhonesAppend(phones: seq<string>, x: string)
    requires phones != []
    ensures JoinPhones(phones + [x]) == JoinPhones(phones) + Separator + x
  {
    if |phones| == 1 {
      assert phones + [x] == [phones[0], x];
      assert (phones + [x])[1..] == [x];
    } else {
      JoinPhonesAppend(phones[1..], x);
      assert (phones + [x])[1..] == phones[1..] + [x];
    }
  }

  /** In the joined text of ten-character phones, phone k occupies the ten
      characters from 12 * k on and is followed by "; " unless it is the last,
      so every phone can be read back in order. */
  lemma {:induction false} JoinedPhoneAt(phones: seq<string>, k: nat)
    requires forall i :: 0 <= i < |phones| ==> |phones[i]| == 10
    requires k < |phones|
    ensures |JoinPhones(phones)| == 12 * |phones| - 2
    ensures JoinPhones(phones)[12 * k .. 12 * k + 10] == phones[k]
    ensures k + 1 < |phones| ==> JoinPhones(phones)[12 * k + 10 .. 12 * k + 12] == Separator
  {
    if |phones| > 1 {
      var rest := JoinPhones(phones[1..]);
      JoinedPhoneAt(phones[1..], if k == 0 then 0 else k - 1);
      assert JoinPhones(phones) == phones[0] + Separator + rest;
      if k > 0 {
        assert JoinPhones(phones)[12 * k .. 12 * k + 10] == rest[12 * (k - 1) .. 12 * (k - 1) + 10];
        if k + 1 < |phones| {
          assert JoinPhones(phones)[12 * k + 10 .. 12 * k + 12] == rest[12 * (k - 1) + 10 .. 12 * (k - 1) + 12];
        }
      }
    }
  }

  /* ---------- The record ---------- */

  class Record {
    const name: string
    var phones: seq<string>

    /** The record's phones are all well formed, as `add_phone` alone keeps them. */
    ghost predicate PhonesValid()
      reads this
    {
      AllValid(phones)
    }

    constructor (name: string)
      ensures this.name == name && phones == []
      ensures PhonesValid()
    {
      this.name := name;
      phones := [];
    }

    /** `add_phone`: append a well-formed number; raise and change nothing otherwise. */
    method AddPhone(number: string) returns (r: Outcome<Error>)
      modifies this
      ensures r == if ValidPhone(number) then Pass else Fail(ValueError(InvalidPhoneMessage))
      ensures phones == if ValidPhone(number) then old(phones) + [number] else old(phones)
      ensures old(PhonesValid()) ==> PhonesValid()
    {
      var phone := NewPhone(number);
      match phone
      case Failure(e) =>
        r := Fail(e);
      case Success(value) =>
        phones := phones + [value];
        r := Pass;
    }

    /** `remove_phone`: delete the first phone equal to `number`, if any, silently. */
    method RemovePhone(number: string)
      modifies this
      ensures phones == RemoveFirst(old(phones), number)
      ensures old(PhonesValid()) ==> PhonesValid()
    {
      if PhonesValid() {
        RemoveFirstKeepsValid(phones, number);
      }
      var i := 0;
      while i < |phones|
        invariant 0 <= i <= |phones|
        invariant phones == old(phones)
        invariant forall j :: 0 <= j < i ==> phones[j] != number
      {
        if phones[i] == number {
          RemoveFirstAt(phones, number, i);
          phones := phones[..i] + phones[i + 1..];
          return;
        }
        i := i + 1;
      }
      RemoveFirstAbsent(phones, number);
    }

    /** `edit_phone` as written: overwrite the first phone equal to `oldNumber` with
        `newNumber`, without checking `newNumber`; raise when there is none. */
    method EditPhone(oldNumber: string, newNumber: string) returns (r: Outcome<Error>)
      modifies this
      ensures r == if oldNumber in old(phones) then Pass else Fail(ValueError(NotFoundMessage))
      ensures phones == ReplaceFirst(old(phones), oldNumber, newNumber)
      ensures old(PhonesValid()) && ValidPhone(newNumber) ==> PhonesValid()
    {
      if PhonesValid() && ValidPhone(newNumber) {
        ReplaceFirstKeepsValid(phones, oldNumber, newNumber);
      }
      var found := FindPhone(oldNumber);
      match found
      case Some(i) =>
        ReplaceFirstAt(phones, oldNumber, newNumber, i);
        phones := phones[i := newNumber];
        r := Pass;
      case None =>
        r := Fail(ValueError(NotFoundMessage));
    }

    /** `edit_phone` with the new number passed through Phone's check first, so that
        every phone of a record stays well formed. */
    method EditPhoneValidated(oldNumber: string, newNumber: string) returns (r: Outcome<Error>)
      modifies this
      ensures r == if oldNumber !in old(phones) then Fail(ValueError(NotFoundMessage))
                   else if !ValidPhone(newNumber) then Fail(ValueError(InvalidPhoneMessage))
                   else Pass
      ensures phones == if r.Pass? then ReplaceFirst(old(phones), oldNumber, newNumber) else old(phones)
      ensures old(PhonesValid()) ==> PhonesValid()
    {
      if PhonesValid() && ValidPhone(newNumber) {
        ReplaceFirstKeepsValid(phones, oldNumber, newNumber);
      }
      var found := FindPhone(oldNumber);
      match found
      case None =>
        r := Fail(ValueError(NotFoundMessage));
      case Some(i) =>
        var phone := NewPhone(newNumber);
        match phone
        case Failure(e) =>
          r := Fail(e);
        case Success(value) =>
          ReplaceFirstAt(phones, oldNumber, newNumber, i);
          phones := phones[i := value];
          r := Pass;
    }

    /** `find_phone`: the position of the first phone equal to `number`, or None. */
    method FindPhone(number: string) returns (r: Option<nat>)
      ensures r == FirstIndex(phones, number)
      ensures r.None? <==> number !in phones
      ensures r.Some? ==> r.value < |phones| && phones[r.value] == number
    {
      var i := 0;
      while i < |phones|
        invariant 0 <= i <= |phones|
        invariant forall j :: 0 <= j < i ==> phones[j] != number
      {
        if phones[i] == number {
          return Some(i);
        }
        i := i + 1;
      }
      return None;
    }

    /** `__str__`: one line naming the contact and listing its phones joined by "; ". */
    function ToString(): (s: string)
      reads this
      ensures |s| >= |NameLabel| + |name| + |PhonesLabel|
      ensures s[..|NameLabel| + |name| + |PhonesLabel|] == NameLabel + name + PhonesLabel
      ensures phones == [] ==> s == NameLabel + name + PhonesLabel
      ensures s[|NameLabel| + |name| + |PhonesLabel|..] == JoinPhones(phones)
      ensures AllValid(phones) && phones != [] ==>
        |s| == |NameLabel| + |name| + |PhonesLabel| + 12 * |phones| - 2
      ensures AllValid(phones) ==> forall k :: 0 <= k < |phones| ==>
        s[|NameLabel| + |name| + |PhonesLabel| + 12 * k ..][..10] == phones[k]
      ensures AllValid(phones) ==> forall k :: 0 <= k < |phones| - 1 ==>
        s[|NameLabel| + |name| + |PhonesLabel| + 12 * k + 10 ..][..2] == Separator
    {
      var head := NameLabel + name + PhonesLabel;
      var joined := JoinPhones(phones);
      assert AllValid(phones) ==> forall k :: 0 <= k < |phones| ==>
        |joined| == 12 * |phones| - 2 && joined[12 * k .. 12 * k + 10] == phones[k] &&
        (k + 1 < |phones| ==> joined[12 * k + 10 .. 12 * k + 12] == Separator) by {
        if AllValid(phones) {
          forall k | 0 <= k < |phones|
            ensures |joined| == 12 * |phones| - 2 && joined[12 * k .. 12 * k + 10] == phones[k]
            ensures k + 1 < |phones| ==> joined[12 * k + 10 .. 12 * k + 12] == Separator
          {
            JoinedPhoneAt(phones, k);
          }
        }
      }
      head + joined
    }
  }
}
