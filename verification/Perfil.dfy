/** The allergy list of the profile form (app/perfil/page.tsx): the component state
    `formData` and `allergyInput`, and the two handlers that edit the list. */
module Perfil {
  import opened Text

  ghost predicate NoDuplicates(list: seq<string>) {
    forall i, j :: 0 <= i < j < |list| ==> list[i] != list[j]
  }

  /** addAllergy changes something exactly when the trimmed input is non-empty and
      not yet in the list. */
  predicate AcceptsAllergy(allergies: seq<string>, input: string): (b: bool)
    ensures b <==> (exists k :: 0 <= k < |input| && !IsSpace(input[k])) && Trim(input) !in allergies
  {
    Trim(input) != "" && Trim(input) !in allergies
  }

  /** The list addAllergy leaves behind: the old list, followed by at most one new
      entry, which is the trimmed input when that is neither blank nor listed. */
  function AllergiesAfterAdd(allergies: seq<string>, input: string): (r: seq<string>)
    ensures |allergies| <= |r| <= |allergies| + 1 && r[..|allergies|] == allergies
    ensures forall a :: a in r <==> a in allergies || (a == Trim(input) && a != "")
  {
    if AcceptsAllergy(allergies, input) then allergies + [Trim(input)] else allergies
  }

  /** The list removeAllergy leaves behind: `allergies.filter(a => a !== allergy)`,
      which has no copy of `allergy` and every copy of every other entry. */
  function AllergiesAfterRemove(allergies: seq<string>, allergy: string): (r: seq<string>)
    ensures allergy !in r
    ensures forall a :: a != allergy ==> multiset(r)[a] == multiset(allergies)[a]
  {
    var other := (a: string) => a != allergy;
    assert forall a :: other(a) == (a != allergy);
    Filter(allergies, other)
  }

  /** An accepted input is appended, trimmed, after all earlier entries in their order;
      a refused one (blank after trimming, or already listed) changes nothing. */
  lemma AddAppendsTrimmed(allergies: seq<string>, input: string)
    ensures var r := AllergiesAfterAdd(allergies, input);
              AcceptsAllergy(allergies, input) ==>
                |r| == |allergies| + 1 && r[..|allergies|] == allergies && r[|allergies|] == Trim(input)
    ensures (forall k :: 0 <= k < |input| ==> IsSpace(input[k])) ==>
              AllergiesAfterAdd(allergies, input) == allergies
    ensures Trim(input) in allergies ==> AllergiesAfterAdd(allergies, input) == allergies
    ensures var r := AllergiesAfterAdd(allergies, input);
              r != allergies ==> Trim(input) != "" && Trim(input) in r && Trim(input) !in allergies
  {
  }

  /** A list without duplicates keeps none after addAllergy. */
  lemma AddKeepsNoDuplicates(allergies: seq<string>, input: string)
    requires NoDuplicates(allergies)
    ensures NoDuplicates(AllergiesAfterAdd(allergies, input))
  {
    var r := AllergiesAfterAdd(allergies, input);
    if AcceptsAllergy(allergies, input) {
      forall i, j | 0 <= i < j < |r| ensures r[i] != r[j] {
        if j == |allergies| {
          assert r[i] == allergies[i];
        }
      }
    }
  }

  /** removeAllergy drops every copy of the value and nothing else: the count of each
      other entry is unchanged and the survivors keep their order. */
  lemma {:induction false} RemoveDropsEveryCopy(allergies: seq<string>, allergy: string)
    ensures multiset(AllergiesAfterRemove(allergies, allergy)) == multiset(allergies)[allergy := 0]
    ensures IsSubsequence(AllergiesAfterRemove(allergies, allergy), allergies)
  {
    if allergies != [] {
      RemoveDropsEveryCopy(allergies[1..], allergy);
      assert allergies == [allergies[0]] + allergies[1..];
      assert multiset(allergies) == multiset{allergies[0]} + multiset(allergies[1..]);
    }
  }

  /** A list without duplicates keeps none after removeAllergy. */
  lemma {:induction false} RemoveKeepsNoDuplicates(allergies: seq<string>, allergy: string)
    requires NoDuplicates(allergies)
    ensures NoDuplicates(AllergiesAfterRemove(allergies, allergy))
  {
    if allergies != [] {
      var rest := allergies[1..];
      assert NoDuplicates(rest) by {
        forall i, j | 0 <= i < j < |rest| ensures rest[i] != rest[j] {
          assert rest[i] == allergies[i + 1] && rest[j] == allergies[j + 1];
        }
      }
      RemoveKeepsNoDuplicates(rest, allergy);
      var tail := AllergiesAfterRemove(rest, allergy);
      if allergies[0] != allergy {
        assert allergies[0] !in rest by {
          forall k | 0 <= k < |rest| ensures rest[k] != allergies[0] {
            assert rest[k] == allergies[k + 1];
          }
        }
        assert allergies[0] !in tail;
        var r := AllergiesAfterRemove(allergies, allergy);
        assert r == [allergies[0]] + tail;
        forall i, j | 0 <= i < j < |r| ensures r[i] != r[j] {
          if i == 0 {
            assert r[j] == tail[j - 1];
          } else {
            assert r[i] == tail[i - 1] && r[j] == tail[j - 1];
          }
        }
      }
    }
  }

  /** Removing what addAllergy has just appended restores the list. */
  lemma RemoveUndoesAdd(allergies: seq<string>, input: string)
    requires AcceptsAllergy(allergies, input)
    ensures AllergiesAfterRemove(AllergiesAfterAdd(allergies, input), Trim(input)) == allergies
  {
    var entry := Trim(input);
    var other := (a: string) => a != entry;
    FilterAppend(allergies, [entry], other);
    FilterKeepsAll(allergies, other);
  }

  /** The profile form's component state. */
  class ProfileForm {
    var name: string
    var dueDate: string
    var birthDate: string
    var bloodType: string
    var phone: string
    var allergies: seq<string>
    var allergyInput: string

    /** The state before the user's profile is loaded: every field empty. */
    constructor ()
      ensures name == "" && dueDate == "" && birthDate == "" && bloodType == "" && phone == ""
      ensures allergies == [] && allergyInput == ""
    {
      name, dueDate, birthDate, bloodType, phone := "", "", "", "", "";
      allergies, allergyInput := [], "";
    }

    /** addAllergy: append the trimmed input if it is non-blank and new, then clear the
        input; otherwise change nothing. */
    method AddAllergy()
      modifies this
      ensures allergies == AllergiesAfterAdd(old(allergies), old(allergyInput))
      ensures allergyInput == if AcceptsAllergy(old(allergies), old(allergyInput)) then "" else old(allergyInput)
      ensures NoDuplicates(old(allergies)) ==> NoDuplicates(allergies)
      ensures name == old(name) && dueDate == old(dueDate) && birthDate == old(birthDate)
      ensures bloodType == old(bloodType) && phone == old(phone)
    {
      if Trim(allergyInput) != "" && Trim(allergyInput) !in allergies {
        allergies := allergies + [Trim(allergyInput)];
        allergyInput := "";
      }
      if NoDuplicates(old(allergies)) {
        AddKeepsNoDuplicates(old(allergies), old(allergyInput));
      }
    }

    /** removeAllergy: drop every entry equal to `allergy`; the input is untouched. */
    method RemoveAllergy(allergy: string)
      modifies this
      ensures allergies == AllergiesAfterRemove(old(allergies), allergy)
      ensures allergy !in allergies
      ensures forall a :: a != allergy ==> (a in allergies <==> a in old(allergies))
      ensures NoDuplicates(old(allergies)) ==> NoDuplicates(allergies)
      ensures allergyInput == old(allergyInput)
      ensures name == old(name) && dueDate == old(dueDate) && birthDate == old(birthDate)
      ensures bloodType == old(bloodType) && phone == old(phone)
    {
      allergies := Filter(allergies, (a: string) => a != allergy);
      if NoDuplicates(old(allergies)) {
        RemoveKeepsNoDuplicates(old(allergies), allergy);
      }
    }
  }
}
