/**
 A beacon node: its counters and its priority.
 */
module BeaconNodes {
  import opened FailoverModel

  class BeaconNode {
    const name: string
    var consecutiveErrors: nat
    var consecutiveSuccesses: nat
    var totalFailures: nat
    var requests: nat
    var priority: nat
    var originalPriority: nat

    function View(): Node
      reads this
    {
      Node(originalPriority, priority, consecutiveErrors, consecutiveSuccesses, totalFailures, requests)
    }

    constructor (name: string)
      ensures this.name == name && View() == Node(0, 0, 0, 0, 0, 0)
    {
      this.name := name;
      consecutiveErrors, consecutiveSuccesses, totalFailures, requests := 0, 0, 0, 0;
      priority, originalPriority := 0, 0;
    }

    method ResetErrors()
      modifies this
      ensures View() == old(View()).(errors := 0)
    {
      consecutiveErrors := 0;
    }

    /** An error breaks the success streak and lengthens both error counts. */
    method IncrementError()
      modifies this
      ensures View() == old(View()).(
        errors := old(View()).errors + 1, failures := old(View()).failures + 1, successes := 0)
    {
      consecutiveErrors := consecutiveErrors + 1;
      totalFailures := totalFailures + 1;
      consecutiveSuccesses := 0;
    }

    method IncrementSuccess()
      modifies this
      ensures View() == old(View()).(successes := old(View()).successes + 1)
    {
      consecutiveSuccesses := consecutiveSuccesses + 1;
    }

    method ResetSuccesses()
      modifies this
      ensures View() == old(View()).(successes := 0)
    {
      consecutiveSuccesses := 0;
    }

    method IncrementRequests()
      modifies this
      ensures View() == old(View()).(requests := old(View()).requests + 1)
    {
      requests := requests + 1;
    }

    method SetPriority(p: nat)
      modifies this
      ensures View() == old(View()).(priority := p)
    {
      priority := p;
    }

    predicate IsPrimary()
      reads this
    {
      priority == 0
    }

    predicate IsBackup()
      reads this
    {
      priority > 0
    }
  }
}
