/** Singly linked lists, for the decoders' outputs and the well-formed
    inputs their round trips start from. Structural recursion over a list
    keeps the decoders' proofs small where a sequence would need slicing. */
module Lists {
  datatype List<T> = Nil | Cons(head: T, tail: List<T>)

  function Length<T>(l: List<T>): nat
  {
    if l.Nil? then 0 else 1 + Length(l.tail)
  }

  function Concat<T>(a: List<T>, b: List<T>): List<T>
  {
    if a.Nil? then b else Cons(a.head, Concat(a.tail, b))
  }

  /** The i-th element, counting from 0. */
  function Nth<T>(l: List<T>, i: nat): T
    requires i < Length(l)
  {
    if i == 0 then l.head else Nth(l.tail, i - 1)
  }
}
