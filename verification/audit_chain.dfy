/** The audit list shown on the dashboard and the block that `handleLogin` and
    `handleRegister` put at its front. Blocks carry no reference to a predecessor:
    the list is an ordered record, not a hash chain, and nothing re-checks it. */
module AuditChain {
  import opened JsText
  import opened RollingHash

  /** What a block records; each handler writes one fixed label. */
  datatype Action = UserLogin | NewAccountCreated

  function ActionLabel(a: Action): (t: Text)
    ensures |t| > 0
  {
    match a
    case UserLogin => FromAscii("User Login")
    case NewAccountCreated => FromAscii("New Account Created")
  }

  const SIGNATURE_PREFIX: Text := FromAscii("sig_")

  /** `{id, timestamp, action, user, hash, signature}`. */
  datatype Block = Block(id: int, timestamp: Text, action: Text, user: Text, hash: Text, signature: Text)

  /** Everything a completed submission reads from outside the model: the block's
      own clock reading, the separate clock reading concatenated into the hash
      input, and the random characters of the signature. */
  datatype Stamp = Stamp(blockTime: Text, hashTime: Text, signatureSuffix: Text)

  /** The block a handler's timer callback builds. Its id comes from the list length
      the callback captured when the handler ran, not from the list it lands on. */
  function NewBlock(action: Action, capturedLength: nat, username: Text, stamp: Stamp): (b: Block)
    ensures b.id == capturedLength + 1
    ensures b.timestamp == stamp.blockTime
    ensures b.action == ActionLabel(action)
    ensures b.user == username
    ensures b.hash == GenerateHash(username + stamp.hashTime)
    ensures |b.signature| == |SIGNATURE_PREFIX| + |stamp.signatureSuffix|
    ensures b.signature[..|SIGNATURE_PREFIX|] == SIGNATURE_PREFIX
    ensures b.signature[|SIGNATURE_PREFIX|..] == stamp.signatureSuffix
  {
    Block(capturedLength + 1, stamp.blockTime, ActionLabel(action), username,
          GenerateHash(username + stamp.hashTime), SIGNATURE_PREFIX + stamp.signatureSuffix)
  }

  /** `prev => [newBlock, ...prev]`: the block goes in front of the list as it is now;
      nothing already in the list moves or changes. */
  function Prepend(chain: seq<Block>, b: Block): (r: seq<Block>)
    ensures |r| == |chain| + 1
    ensures r[0] == b
    ensures r[1..] == chain
  {
    [b] + chain
  }

  /** What one callback does to the list. */
  function RecordAction(chain: seq<Block>, action: Action, capturedLength: nat, username: Text,
                        stamp: Stamp): seq<Block>
  {
    Prepend(chain, NewBlock(action, capturedLength, username, stamp))
  }

  /** Ids are exactly 1..|chain| in some order: true of the initial mock list and
      kept by every append whose captured length is current. */
  ghost predicate IdsArePermutation(chain: seq<Block>) {
    && (forall i :: 0 <= i < |chain| ==> 1 <= chain[i].id <= |chain|)
    && (forall i, j :: 0 <= i < j < |chain| ==> chain[i].id != chain[j].id)
  }

  /** When no other block landed since the handler ran, the new block's id is the
      new length of the list, and the ids stay a permutation of 1..n. */
  lemma FreshCaptureKeepsIds(chain: seq<Block>, action: Action, username: Text, stamp: Stamp)
    requires IdsArePermutation(chain)
    ensures var r := RecordAction(chain, action, |chain|, username, stamp);
            r[0].id == |r| && IdsArePermutation(r)
  {
    var r := RecordAction(chain, action, |chain|, username, stamp);
    forall i, j | 0 <= i < j < |r|
      ensures r[i].id != r[j].id
    {
      if i > 0 {
        assert r[i] == chain[i - 1] && r[j] == chain[j - 1];
      } else {
        assert r[j] == chain[j - 1];
      }
    }
  }

  /** Two callbacks that captured the same length, because the second handler ran
      before the first timer fired, leave two blocks with the same id on top. */
  lemma StaleCaptureDuplicatesId(chain: seq<Block>, a1: Action, u1: Text, s1: Stamp,
                                 a2: Action, u2: Text, s2: Stamp)
    ensures var r := RecordAction(RecordAction(chain, a1, |chain|, u1, s1), a2, |chain|, u2, s2);
            |r| == |chain| + 2 && r[0].id == r[1].id == |chain| + 1
  {
  }

  /** One completed submission: which handler, who, and the outside readings. */
  datatype Submission = Submission(action: Action, username: Text, stamp: Stamp)

  /** Completions applied one after another, oldest first, each seeing the list the
      previous one left (no interleaving). */
  function Replay(chain: seq<Block>, subs: seq<Submission>): (r: seq<Block>)
    ensures |r| == |chain| + |subs|
  {
    if subs == [] then chain
    else
      var prev := Replay(chain, subs[..|subs| - 1]);
      var s := subs[|subs| - 1];
      RecordAction(prev, s.action, |prev|, s.username, s.stamp)
  }

  /** One step of `Replay`: the newest submission's block on top of the previous run. */
  lemma ReplayStep(chain: seq<Block>, subs: seq<Submission>)
    requires subs != []
    ensures var r, prev := Replay(chain, subs), Replay(chain, subs[..|subs| - 1]);
            && r[1..] == prev
            && r[0].id == |r|
            && r[0].user == subs[|subs| - 1].username
  {
  }

  /** After a run of completions the original list is untouched at the bottom. */
  lemma {:induction false} ReplayKeepsBase(chain: seq<Block>, subs: seq<Submission>)
    ensures Replay(chain, subs)[|subs|..] == chain
    decreases |subs|
  {
    if subs != [] {
      var p := subs[..|subs| - 1];
      ReplayKeepsBase(chain, p);
      ReplayStep(chain, subs);
      var prev, r := Replay(chain, p), Replay(chain, subs);
      assert r[|subs|..] == r[1..][|p|..];
    }
  }

  /** Position `i` of a run of completions holds a block whose id counts down from
      the length. */
  lemma {:induction false} ReplayIdAt(chain: seq<Block>, subs: seq<Submission>, i: nat)
    requires i < |subs|
    ensures Replay(chain, subs)[i].id == |chain| + |subs| - i
    decreases |subs|
  {
    var p := subs[..|subs| - 1];
    ReplayStep(chain, subs);
    if i > 0 {
      ReplayIdAt(chain, p, i - 1);
      assert Replay(chain, subs)[i].id == Replay(chain, p)[i - 1].id;
    }
  }

  /** After a run of completions the new blocks sit on top of the original list
      with ids counting down from the length: the newest block has the largest id. */
  lemma ReplayIdsCountDown(chain: seq<Block>, subs: seq<Submission>)
    ensures var r := Replay(chain, subs);
            forall i :: 0 <= i < |subs| ==> r[i].id == |r| - i
  {
    forall i | 0 <= i < |subs|
      ensures Replay(chain, subs)[i].id == |chain| + |subs| - i
    {
      ReplayIdAt(chain, subs, i);
    }
  }
}
