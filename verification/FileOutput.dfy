/** `fwriten` of base/AsyncLogging.cpp, which hands a text to `fwrite` until all of it is counted as written. */
module FileOutput {

  /**
   What `fwrite` may return in turn when `remain` bytes are asked for: counts up to
   what remains, until nothing does or a count of zero ends the loop.
   */
  predicate Legal(counts: seq<nat>, remain: nat)
    decreases |counts|
  {
    if remain == 0 then
      counts == []
    else
      && counts != [] && counts[0] <= remain
      && if counts[0] == 0 then |counts| == 1 else Legal(counts[1..], remain - counts[0])
  }

  /** What gets to the file: every call starts at the front of the text again. */
  function Delivered(text: string, counts: seq<nat>): string
    requires forall i :: 0 <= i < |counts| ==> counts[i] <= |text|
  {
    if counts == [] then "" else text[..counts[0]] + Delivered(text, counts[1..])
  }

  lemma {:induction false} LegalIsBounded(counts: seq<nat>, remain: nat, n: nat)
    requires Legal(counts, remain) && remain <= n
    ensures forall i :: 0 <= i < |counts| ==> counts[i] <= n
    decreases |counts|
  {
    if counts != [] && counts[0] > 0 {
      LegalIsBounded(counts[1..], remain - counts[0], n);
    }
  }

  lemma {:induction false} DeliveredSnoc(text: string, counts: seq<nat>, c: nat)
    requires c <= |text| && forall i :: 0 <= i < |counts| ==> counts[i] <= |text|
    ensures Delivered(text, counts + [c]) == Delivered(text, counts) + text[..c]
  {
    if counts == [] {
      assert [c][1..] == [];
    } else {
      assert (counts + [c])[1..] == counts[1..] + [c];
      DeliveredSnoc(text, counts[1..], c);
    }
  }

  /** `counts` are the results of the calls of `fwrite`. */
  method Fwriten(file: string, text: string, counts: seq<nat>) returns (file': string)
    requires Legal(counts, |text|)
    ensures (forall i :: 0 <= i < |counts| ==> counts[i] <= |text|)
    ensures file' == file + Delivered(text, counts)
  {
    LegalIsBounded(counts, |text|, |text|);
    file' := file;
    var remain, k := |text|, 0;
    ghost var done := "";
    while remain > 0
      invariant 0 <= k <= |counts| && 0 <= remain <= |text| && Legal(counts[k..], remain)
      invariant done == Delivered(text, counts[..k]) && file' == file + done
    {
      var n := counts[k];
      assert counts[..k + 1] == counts[..k] + [n];
      DeliveredSnoc(text, counts[..k], n);
      assert counts[k..][1..] == counts[k + 1..];
      file' := file' + text[..n];
      done := done + text[..n];
      k := k + 1;
      if n == 0 {
        break;
      }
      remain := remain - n;
    }
    assert counts[..k] == counts;
  }

  /**
   The texts of a given length get to the file as they are if and only if the first
   call of `fwrite` takes all of it; after a short write some texts do not.
   */
  lemma RightExactlyIfComplete(counts: seq<nat>, n: nat)
    requires Legal(counts, n)
    ensures forall i :: 0 <= i < |counts| ==> counts[i] <= n
    ensures (forall text: string :: |text| == n ==> Delivered(text, counts) == text) <==>
      n == 0 || counts == [n]
  {
    LegalIsBounded(counts, n, n);
    if n > 0 && counts != [n] {
      var c := counts[0];
      var text := seq(n, i => if i == c then 'b' else 'a');
      assert |text| == n;
      ShortWriteIsWrong(text, counts);
    }
    if counts == [n] {
      assert counts[1..] == [];
    }
  }

  /** A short write spoils every text whose next byte is not its first one. */
  lemma ShortWriteIsWrong(text: string, counts: seq<nat>)
    requires Legal(counts, |text|) && counts != [] && counts[0] < |text|
    requires counts[0] > 0 ==> text[counts[0]] != text[0]
    ensures forall i :: 0 <= i < |counts| ==> counts[i] <= |text|
    ensures Delivered(text, counts) != text
  {
    LegalIsBounded(counts, |text|, |text|);
    var c := counts[0];
    if c > 0 {
      var d := counts[1];
      assert Delivered(text, counts) == text[..c] + (text[..d] + Delivered(text, counts[2..])) by {
        assert counts[1..][1..] == counts[2..];
      }
      if d > 0 {
        assert Delivered(text, counts)[c] == text[0];
      } else {
        assert counts[2..] == [];
        assert |Delivered(text, counts)| == c;
      }
    } else {
      assert counts[1..] == [];
    }
  }
}
