/** The two priority queues of the path-finding code. Which of several least
    entries comes out first is left open, as the standard library leaves it. */
module PriorityQueue {

  lemma {:induction false} LeastExists<T>(queue: multiset<T>, key: T -> nat, y: T)
    requires y in queue
    ensures exists top :: top in queue && forall x :: x in queue ==> key(top) <= key(x)
    decreases key(y)
  {
    if z :| z in queue && key(z) < key(y) {
      LeastExists(queue, key, z);
    }
  }

  method PopLeast<T(==)>(queue: multiset<T>, key: T -> nat) returns (top: T, rest: multiset<T>)
    requires queue != multiset{}
    ensures queue == rest + multiset{top}
    ensures forall x :: x in rest ==> key(top) <= key(x)
  {
    ghost var y :| y in queue;
    LeastExists(queue, key, y);
    top :| top in queue && forall x :: x in queue ==> key(top) <= key(x);
    rest := queue - multiset{top};
  }
}
