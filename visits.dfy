/** Counting the cells a search has yet to visit: the measure that makes a
    breadth-first search over a finite grid terminate. */
module Visits {
  /** How many of `cells` are not in `visited`. */
  function Unseen<T>(cells: seq<T>, visited: set<T>): nat {
    if cells == [] then 0
    else Unseen(cells[..|cells| - 1], visited) + (if cells[|cells| - 1] in visited then 0 else 1)
  }

  /** Visiting one more cell never raises the count, and lowers it when the cell
      is listed and was unvisited. */
  lemma {:induction false} UnseenMark<T>(cells: seq<T>, visited: set<T>, b: T)
    ensures Unseen(cells, visited + {b}) <= Unseen(cells, visited)
    ensures b in cells && b !in visited ==> Unseen(cells, visited + {b}) < Unseen(cells, visited)
  {
    if cells != [] {
      var front := cells[..|cells| - 1];
      UnseenMark(front, visited, b);
      if b in cells && b !in visited && b != cells[|cells| - 1] {
        assert b in front by {
          var i :| 0 <= i < |cells| && cells[i] == b;
          assert front[i] == b;
        }
      }
    }
  }
}
