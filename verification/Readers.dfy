/** Go's io.Reader, with every behaviour its contract allows. */
module Readers {

  datatype ReadError = NoError | Eof | Failure

  /** How the reader answers one call: at most `most` elements, the end of the input reported
      together with the last elements when `eager`, and a failure when `fails`. */
  datatype Act = Act(most: nat, eager: bool, fails: bool)

  function Min(a: nat, b: nat): nat {
    if a < b then a else b
  }

  predicate NeverFails(acts: seq<Act>) {
    forall i :: 0 <= i < |acts| ==> !acts[i].fails
  }

  /** A source of `content`. It answers its next calls as the adversary scripted in `acts`
      (short reads, empty reads, data together with the end, failures), and plainly after that. */
  class Source<T> {
    const content: seq<T>
    var pos: nat
    var acts: seq<Act>
    // Whether the end was ever reported together with data.
    ghost var joined: bool

    ghost predicate Valid() reads this {
      pos <= |content|
    }

    ghost predicate Reliable() reads this {
      NeverFails(acts)
    }

    ghost function Rest(): seq<T>
      requires Valid()
      reads this
    {
      content[pos..]
    }

    /** What a loop of non-empty reads uses up. */
    ghost function Effort(): nat
      requires Valid()
      reads this
    {
      |acts| + |content| - pos
    }

    constructor (content: seq<T>, acts: seq<Act>)
      ensures Valid() && pos == 0 && !joined
      ensures this.content == content && this.acts == acts
    {
      this.content, this.acts, pos, joined := content, acts, 0, false;
    }

    method Read(n: nat) returns (data: seq<T>, err: ReadError)
      requires Valid() && n > 0
      modifies this
      ensures Valid() && old(pos) <= pos
      ensures data == content[old(pos)..pos] && |data| <= n
      ensures err == Eof ==> pos == |content|
      ensures err == NoError ==> Effort() < old(Effort())
      ensures Effort() <= old(Effort())
      ensures joined == (old(joined) || (data != [] && err == Eof))
      ensures old(Reliable()) ==> Reliable() && err != Failure
    {
      var act := Act(n, false, false);
      var scripted := acts != [];
      if scripted {
        act, acts := acts[0], acts[1..];
      }
      var k := Min(Min(act.most, n), |content| - pos);
      var ended := |content| == pos + k && (act.eager || (k == 0 && !scripted));
      data, pos := content[pos..pos + k], pos + k;
      err := if act.fails then Failure else if ended then Eof else NoError;
      joined := joined || (data != [] && err == Eof);
    }
  }
}
