// Chapter 5: a user record built by a function and by struct update, and
// rectangles with an area, a containment test and a square constructor.
module Structs {
  import opened Ints

  datatype User = User(username: string, email: string, signInCount: nat, active: bool)

  /** `build_user`: the given email and username, active, signed in once. */
  function BuildUser(email: string, username: string): (u: User)
    ensures u.email == email && u.username == username
    ensures u.active && u.signInCount == 1
  {
    User(username, email, 1, true)
  }

  /** `User { email, username, ..user1 }`: the listed fields from the
      literal, every other field from `user1`. */
  function UpdateUser(user1: User, email: string, username: string): (u: User)
    ensures u.email == email && u.username == username
    ensures u.active == user1.active && u.signInCount == user1.signInCount
  {
    user1.(email := email, username := username)
  }

  /** Updating a built user gives the user built from the new fields, and
      updating with a user's own fields changes nothing. */
  lemma UpdateUserLaws(user1: User, email: string, username: string)
    ensures UpdateUser(BuildUser(user1.email, user1.username), email, username) == BuildUser(email, username)
    ensures UpdateUser(user1, user1.email, user1.username) == user1
  {
  }

  datatype Rectangle = Rectangle(width: nat, height: nat)
  {
    /** `area`; the product must fit in `u32`. */
    function Area(): nat
      requires IsU32(width * height)
    {
      width * height
    }

    /** `can_hold`: strictly wider and strictly taller. */
    predicate CanHold(other: Rectangle) {
      width > other.width && height > other.height
    }

    /** `Rectangle::square(size)` */
    static function Square(size: nat): (r: Rectangle)
      ensures r.width == size && r.height == size
    {
      Rectangle(size, size)
    }
  }

  /** The free function `area(width, height)` and the free function over a
      rectangle give the method's answer. */
  function AreaOf(width: nat, height: nat): (a: nat)
    requires IsU32(width * height)
    ensures a == Rectangle(width, height).Area()
  {
    width * height
  }

  /** `can_hold` is a strict order: no rectangle holds itself, holding is
      never mutual, and it passes through a middle rectangle. */
  lemma CanHoldIsStrictOrder(a: Rectangle, b: Rectangle, c: Rectangle)
    ensures !a.CanHold(a)
    ensures a.CanHold(b) ==> !b.CanHold(a)
    ensures a.CanHold(b) && b.CanHold(c) ==> a.CanHold(c)
  {
  }

  /** A rectangle that holds another has a strictly larger area. */
  lemma CanHoldLargerArea(a: Rectangle, b: Rectangle)
    requires IsU32(a.width * a.height) && IsU32(b.width * b.height)
    requires a.CanHold(b)
    ensures a.Area() > b.Area()
  {
    calc {
      b.width * b.height;
    <=  a.width * b.height;
    <  { assert a.width > 0; } a.width * a.height;
    }
  }

  /** A square's area is its side squared, and a square holds exactly the
      rectangles whose both sides are shorter. */
  lemma SquareLaws(size: nat, r: Rectangle)
    requires IsU32(size * size)
    ensures Rectangle.Square(size).Area() == size * size
    ensures Rectangle.Square(size).CanHold(r) <==> r.width < size && r.height < size
  {
  }

  /** The chapter's rectangles: 30 by 50 has area 1500 and holds 10 by 40
      but not 60 by 45. */
  lemma ChapterRectangles()
    ensures Rectangle(30, 50).Area() == 1500
    ensures Rectangle(30, 50).CanHold(Rectangle(10, 40))
    ensures !Rectangle(30, 50).CanHold(Rectangle(60, 45))
  {
  }
}
