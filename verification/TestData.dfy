/** The items that the test programs of data-queue-concurrent send through a queue. */
module TestData {

  const W32: nat := 0x1_0000_0000

  type U32 = x: int | 0 <= x < 0x1_0000_0000

  // testdata
  datatype Item = Item(top: U32, bottom: U32)

  // What do_enqueue sends as its i-th item; i - 1 wraps at 0.
  function TestItem(i: nat): Item {
    Item((i + 1) % W32, (i + W32 - 1) % W32)
  }

  function TestItems(n: nat): seq<Item> {
    seq(n, i requires 0 <= i => TestItem(i))
  }

  lemma TestItemIs(i: nat)
    ensures TestItem(i).top == (i + 1) % 4294967296 && TestItem(i).bottom == (i - 1) % 4294967296
  {
  }

  // The items sent: item k has k + 1 on top and k - 1 at the bottom, on uint32_t.
  lemma SentItems(received: seq<Item>)
    ensures received == TestItems(|received|) <==>
            forall k | 0 <= k < |received| ::
              received[k].top == (k + 1) % 4294967296 && received[k].bottom == (k - 1) % 4294967296
  {
    forall k: nat ensures TestItem(k).top == (k + 1) % 4294967296 && TestItem(k).bottom == (k - 1) % 4294967296 {
      TestItemIs(k);
    }
    if received != TestItems(|received|) {
      var k :| 0 <= k < |received| && received[k] != TestItem(k);
    }
  }

  // How do_dequeue ends: past its loop, or at its first return (-1) or its second (-2).
  datatype Outcome = Passed | WrongTop | WrongBottom

  // do_dequeue's comparison of what it received with what was sent.
  method CheckReceived(received: seq<Item>) returns (outcome: Outcome)
    ensures outcome == Passed <==> received == TestItems(|received|)
    ensures outcome == WrongTop ==>
              exists k :: 0 <= k < |received| && received[..k] == TestItems(k) && received[k].top != TestItem(k).top
    ensures outcome == WrongBottom ==>
              exists k :: 0 <= k < |received| && received[..k] == TestItems(k) && received[k].bottom != TestItem(k).bottom
  {
    var counter := 0;
    while counter < |received|
      invariant 0 <= counter <= |received|
      invariant received[..counter] == TestItems(counter)
    {
      if received[counter].top != (counter + 1) % W32 {
        assert received[counter] != TestItems(|received|)[counter];
        return WrongTop;
      }
      if received[counter].bottom != (counter + W32 - 1) % W32 {
        assert received[counter] != TestItems(|received|)[counter];
        return WrongBottom;
      }
      assert received[counter] == TestItem(counter);
      counter := counter + 1;
    }
    assert received[..counter] == received;
    return Passed;
  }
}
