/** `getUsername`: the short display name shown on the signed-in home page. */
module Username {
  import opened Strings

  function Min(a: int, b: int): int {
    if a <= b then a else b
  }

  /** `username[0:i] + username[i:i + 2]` where `i = username.find(" ")`.
      With a space this is the first word, the space and at most one more
      character. Without one, `find` answers -1, which the slices read as
      "one before the end": the name loses its last character, and a name
      of at most one character comes back whole. */
  function GetUsername(name: string): (r: string)
    ensures forall i | 0 <= i < |name| && name[i] == ' ' && ' ' !in name[..i] ::
      r == name[..Min(i + 2, |name|)]
    ensures ' ' !in name && |name| >= 2 ==> r == name[..|name| - 1]
    ensures ' ' !in name && |name| <= 1 ==> r == name
    ensures IsPrefix(r, name)
  {
    var space := Find(name, ' ');
    var r := Slice(name, 0, space) + Slice(name, space, space + 2);
    // When the two slices meet, they are the single slice `name[0:space + 2]`.
    assert SliceBound(space, |name|) <= SliceBound(space + 2, |name|) ==> r == Slice(name, 0, space + 2) by {
      if SliceBound(space, |name|) <= SliceBound(space + 2, |name|) {
        SliceJoin(name, 0, space, space + 2);
      }
    }
    r
  }

  /** A first and last name keep the first name, the space and one initial
      letter: "Jane Doe" becomes "Jane D". */
  lemma TwoWordExample()
    ensures GetUsername("Jane Doe") == "Jane D"
  {
    var name := "Jane Doe";
    assert name[4] == ' ' && ' ' !in name[..4];
    assert name[..6] == "Jane D";
  }

  /** A single-word name loses its last letter. */
  lemma OneWordExample()
    ensures GetUsername("Ada") == "Ad"
  {
    var name := "Ada";
    assert ' ' !in name;
    assert name[..2] == "Ad";
  }
}
