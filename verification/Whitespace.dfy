/** White space as Go's unicode and strings packages see it. */
module Whitespace {

  /** unicode.IsSpace, which strings.TrimSpace uses. */
  predicate IsSpace(c: char) {
    var u := c as int;
    || 0x09 <= u <= 0x0D || u == 0x20 || u == 0x85 || u == 0xA0 || u == 0x1680
    || 0x2000 <= u <= 0x200A || u == 0x2028 || u == 0x2029 || u == 0x202F
    || u == 0x205F || u == 0x3000
  }

  /** The 25 code points with Unicode's White_Space property. */
  lemma SpacesAre(c: char)
    ensures
      var spaces :=
        {9, 10, 11, 12, 13, 32, 133, 160, 5760, 8192, 8193, 8194, 8195, 8196, 8197, 8198, 8199, 8200, 8201, 8202,
         8232, 8233, 8239, 8287, 12288};
      IsSpace(c) <==> c as int in spaces
  {
  }

  /** strings.TrimSpace(t) == "" */
  predicate Blank(t: seq<char>) { BlankBetween(t, 0, |t|) }

  predicate BlankBetween(t: seq<char>, a: nat, b: nat)
    requires b <= |t|
  {
    forall i {:trigger IsSpace(t[i])} :: a <= i < b ==> IsSpace(t[i])
  }
}
