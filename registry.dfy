/** The session list `mSessions` of a terminal, as a sequence of references. */
module Registry {
  import opened Errors
  import opened Collaborators

  /** No session is tracked twice. */
  predicate Distinct(ss: seq<Session>) {
    forall i, j :: 0 <= i < j < |ss| ==> ss[i] != ss[j]
  }

  /** No tracked session holds a basic channel. */
  predicate NoBasicChannel(ss: seq<Session>)
    reads set s | s in ss
  {
    forall i :: 0 <= i < |ss| ==> ss[i].basicChannel == null
  }

  /** `ArrayList.remove(Object)`: drops the first occurrence, keeping the order. */
  function RemoveFirst(ss: seq<Session>, x: Session): (r: seq<Session>)
    ensures x in ss ==> |r| == |ss| - 1
    ensures x !in ss ==> r == ss
    ensures forall y :: y in r ==> y in ss
    ensures forall y :: y in ss && y != x ==> y in r
    ensures Distinct(ss) ==> Distinct(r) && x !in r
    decreases |ss|
  {
    if ss == [] then []
    else if ss[0] == x then ss[1..]
    else
      var rest := RemoveFirst(ss[1..], x);
      assert Distinct(ss) ==> Distinct(ss[1..]) && ss[0] !in ss[1..];
      [ss[0]] + rest
  }

  /** The session removed is the first occurrence, and the others keep their order. */
  lemma {:induction false} RemoveFirstKeepsOrder(ss: seq<Session>, x: Session, i: nat)
    requires i < |ss| && ss[i] == x && x !in ss[..i]
    ensures RemoveFirst(ss, x) == ss[..i] + ss[i + 1..]
    decreases i
  {
    if i > 0 {
      assert ss[0] != x by { assert ss[0] in ss[..i]; }
      assert ss[1..][i - 1] == x;
      assert ss[1..][..i - 1] == ss[1..i];
      RemoveFirstKeepsOrder(ss[1..], x, i - 1);
      assert ss[..i] == [ss[0]] + ss[1..i];
      assert ss[i + 1..] == ss[1..][i..];
    }
  }

  /** Appending a session not yet tracked keeps the list free of duplicates. */
  lemma AppendDistinct(ss: seq<Session>, x: Session)
    requires Distinct(ss) && x !in ss
    ensures Distinct(ss + [x])
  {
  }

  /** What closing each tracked session would record: nothing for a session already
      closed, since `closeSession` skips `closeChannels` for it. */
  function CloseFaults(ss: seq<Session>): seq<Option<Fault>>
    reads set s | s in ss
  {
    seq(|ss|, i reads if 0 <= i < |ss| then {ss[i]} else {} requires 0 <= i < |ss| => if ss[i].closed then None else ss[i].closeFault)
  }

  /** The first recorded error, in list order. */
  function FirstSome(faults: seq<Option<Fault>>): Option<Fault> {
    if faults == [] then None
    else if faults[0].Some? then faults[0]
    else FirstSome(faults[1..])
  }

  /** Recording one more error keeps the first one, if there was one. */
  lemma {:induction false} FirstSomeAppend(faults: seq<Option<Fault>>, f: Option<Fault>)
    ensures FirstSome(faults + [f]) == if FirstSome(faults).Some? then FirstSome(faults) else f
    decreases |faults|
  {
    if faults == [] {
      assert [] + [f] == [f];
    } else {
      assert (faults + [f])[1..] == faults[1..] + [f];
      if faults[0].None? {
        FirstSomeAppend(faults[1..], f);
      }
    }
  }

  /** The first recorded error is one of those recorded, and there is one exactly when
      some error was recorded. */
  lemma {:induction false} FirstSomeFound(faults: seq<Option<Fault>>)
    ensures FirstSome(faults).Some? <==> exists i :: 0 <= i < |faults| && faults[i].Some?
    ensures FirstSome(faults).Some? ==> FirstSome(faults) in faults
    decreases |faults|
  {
    if faults != [] {
      FirstSomeFound(faults[1..]);
      if faults[0].None? {
        if exists i :: 0 <= i < |faults| && faults[i].Some? {
          var i :| 0 <= i < |faults| && faults[i].Some?;
          assert faults[1..][i - 1] == faults[i];
        }
      }
    }
  }
}
