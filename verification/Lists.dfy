/** Lists built from the front. */
module Lists {

  datatype List<+T> = Nil | Cons(head: T, tail: List<T>)

  function Length<T>(s: List<T>): nat {
    match s
    case Nil => 0
    case Cons(_, tail) => 1 + Length(tail)
  }
}
