/**
 * UserEntry of decks.core: a user identified by name, with the equality,
 * hash code and text form of java.lang.String and java.util.Objects.
 */
module Users {
  import opened Outcomes
  import opened Clock

  datatype UserEntry = UserEntry(name: string)

  /** The constructor: requireNonNull of the name. */
  function NewUserEntry(name: Option<string>): (r: Result<UserEntry>)
    ensures r.Ok? <==> name.Some?
    ensures r.Ok? ==> r.value.name == name.value
    ensures r.Err? ==> r.error == NullPointer
  {
    var n :- RequireNonNull(name);
    Ok(UserEntry(n))
  }

  /** equals: the same name; never equal to null or to another type. */
  function Equals(u: UserEntry, o: Option<UserEntry>): (r: bool)
    ensures r <==> o.Some? && o.value.name == u.name
  {
    match o
    case None => false
    case Some(other) => u.name == other.name
  }

  /** String.hashCode: h = 31 * h + c over the characters, in int arithmetic. */
  function StringHash(s: string): Int32 {
    if s == [] then 0
    else Wrap(31 * StringHash(s[..|s| - 1]) + s[|s| - 1] as int)
  }

  /** The polynomial s[0]*31^(n-1) + ... + s[n-1] without wrap-around. */
  function Polynomial(s: string): int {
    if s == [] then 0 else 31 * Polynomial(s[..|s| - 1]) + s[|s| - 1] as int
  }

  /** Wrapping at every step gives the polynomial hash wrapped once, as the String documentation states it. */
  lemma {:induction false} StringHashIsPolynomial(s: string)
    ensures StringHash(s) == Wrap(Polynomial(s))
  {
    if s != [] {
      var init := s[..|s| - 1];
      var c := s[|s| - 1] as int;
      StringHashIsPolynomial(init);
      var w, p := StringHash(init), Polynomial(init);
      var k := (w - p) / 0x1_0000_0000;
      assert w - p == k * 0x1_0000_0000;
      WrapCongruent(31 * w + c, 31 * p + c, 31 * k);
    }
  }

  /** hashCode: Objects.hash(name), that is 31 + name.hashCode() in int arithmetic. */
  function HashCode(u: UserEntry): Int32 {
    Wrap(31 + StringHash(u.name))
  }

  /** Equal users have equal hash codes. */
  lemma EqualUsersHashAlike(u: UserEntry, v: UserEntry)
    requires Equals(u, Some(v))
    ensures HashCode(u) == HashCode(v)
  {
  }

  /** toString: "User<" + name + ">". */
  function ToString(u: UserEntry): (r: string)
    ensures |r| == |u.name| + 6
    ensures r[..5] == "User<" && r[5..|r| - 1] == u.name && r[|r| - 1] == '>'
  {
    "User<" + u.name + ">"
  }

  /** Distinct users print differently. */
  lemma ToStringInjective(u: UserEntry, v: UserEntry)
    ensures ToString(u) == ToString(v) <==> u == v
  {
    if ToString(u) == ToString(v) {
      assert u.name == ToString(u)[5..|ToString(u)| - 1];
    }
  }
}
