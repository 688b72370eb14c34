/** The token list of a packet format: byte ranges in order, none overlapping another.
    Source: src/g1_fmt.c. */
module TokenRanges {
  import opened IntKeys
  import opened Options
  import opened Sequences

  datatype Token = Token(topic: UInt32, offset: nat, len: nat)

  /** Arithmetic of `unsigned long` wraps around. */
  const WORD: nat := 0x1_0000_0000_0000_0000

  function Add(a: nat, b: nat): nat {
    (a + b) % WORD
  }

  /** The loop of `add_g1_token_internal` over the rest of the list, after a token that ends at `from`;
      `None` when the new token is refused. */
  function Insert(tokens: seq<Token>, size: nat, t: Token, from: nat): Option<seq<Token>> {
    if tokens == [] then
      if t.offset >= from && Add(t.offset, t.len) <= size then Some([t]) else None
    else
      var cur := tokens[0];
      if t.topic == cur.topic then None
      else if t.offset >= from && Add(t.offset, t.len) <= cur.offset then Some([t] + tokens)
      else
        match Insert(tokens[1..], size, t, Add(cur.offset, cur.len))
        case Some(rest) => Some([cur] + rest)
        case None => None
  }

  /** `del_g1_token_internal`: the first token with the topic goes. */
  function Delete(tokens: seq<Token>, topic: nat): seq<Token> {
    if tokens == [] then []
    else if tokens[0].topic == topic then tokens[1..]
    else [tokens[0]] + Delete(tokens[1..], topic)
  }

  /** The ranges are not empty, in order from `from` on, disjoint, and end by `size`. */
  predicate Ordered(tokens: seq<Token>, from: nat, size: nat) {
    if tokens == [] then from <= size
    else
      && from <= tokens[0].offset && tokens[0].len > 0
      && Ordered(tokens[1..], tokens[0].offset + tokens[0].len, size)
  }

  predicate HasTopic(tokens: seq<Token>, topic: nat) {
    exists i :: 0 <= i < |tokens| && tokens[i].topic == topic
  }

  predicate Overlap(a: Token, b: Token) {
    a.offset < b.offset + b.len && b.offset < a.offset + a.len
  }

  /** The range lies within the packet and is free. */
  predicate IsFree(tokens: seq<Token>, size: nat, t: Token) {
    t.offset + t.len <= size && forall i :: 0 <= i < |tokens| ==> !Overlap(t, tokens[i])
  }

  // ----- the list on the heap -----

  class TokenNode {
    const token: Token
    var next: TokenNode?

    constructor (token: Token)
      ensures this.token == token
    {
      this.token, next := token, null;
    }
  }

  ghost function At(nodes: seq<TokenNode>, i: nat): TokenNode? {
    if i < |nodes| then nodes[i] else null
  }

  ghost function TokensOf(nodes: seq<TokenNode>): seq<Token> {
    seq(|nodes|, i requires 0 <= i < |nodes| => nodes[i].token)
  }

  lemma TokensWith(nodes: seq<TokenNode>, at: nat, node: TokenNode)
    requires at <= |nodes|
    ensures TokensOf(nodes[..at] + [node] + nodes[at..]) ==
      TokensOf(nodes)[..at] + [node.token] + TokensOf(nodes)[at..]
  {
  }

  lemma TokensWithout(nodes: seq<TokenNode>, at: nat)
    requires at < |nodes|
    ensures TokensOf(nodes[..at] + nodes[at + 1..]) == TokensOf(nodes)[..at] + TokensOf(nodes)[at + 1..]
  {
  }

  /** A packet format as far as its tokens go: its size, and the list that `token` starts. */
  class TokenList {
    const size: nat
    var token: TokenNode?
    ghost var nodes: seq<TokenNode>

    ghost predicate Valid()
      reads this, nodes
    {
      && (forall i, j :: 0 <= i < j < |nodes| ==> nodes[i] != nodes[j])
      && token == At(nodes, 0)
      && (forall i {:trigger nodes[i].next} :: 0 <= i < |nodes| ==> nodes[i].next == At(nodes, i + 1))
    }

    ghost function Tokens(): seq<Token>
      reads this
    {
      TokensOf(nodes)
    }

    constructor (size: nat)
      ensures Valid() && Tokens() == [] && this.size == size
    {
      this.size, token, nodes := size, null, [];
    }

    /** `*ptr`, where `ptr` is the address of `token` or of the `next` of a node. */
    function Behind(previous: TokenNode?): TokenNode?
      reads this, previous
    {
      if previous == null then token else previous.next
    }

    /** `ptr` is the address of the link to node `i`. */
    ghost predicate LinkTo(previous: TokenNode?, i: nat)
      reads this
    {
      i <= |nodes| && previous == if i == 0 then null else nodes[i - 1]
    }

    /** The loop of `add_g1_token_internal`: walks with the end of the previous token to the link where
        the new token fits. */
    method FindPlace(t: Token) returns (found: bool, previous: TokenNode?, ghost at: nat)
      requires Valid()
      ensures found <==> Insert(Tokens(), size, t, 0).Some?
      ensures found ==>
        LinkTo(previous, at) && Insert(Tokens(), size, t, 0) == Some(Tokens()[..at] + [t] + Tokens()[at..])
    {
      previous, at := null, 0;
      var cur := token;
      var offset1, len1 := 0, 0;
      ghost var tokens := Tokens();
      WalkStarts(tokens, size, t);
      while cur != null
        invariant LinkTo(previous, at) && cur == At(nodes, at)
        invariant Insert(tokens, size, t, 0) == Walked(tokens, at, size, t, Add(offset1, len1))
        decreases |nodes| - at
      {
        WalkStep(tokens, at, size, t, Add(offset1, len1));
        if t.topic == cur.token.topic {
          return false, null, 0;
        }
        if t.offset >= Add(offset1, len1) && Add(t.offset, t.len) <= cur.token.offset {
          return true, previous, at;
        }
        offset1, len1 := cur.token.offset, cur.token.len;
        previous, cur, at := cur, cur.next, at + 1;
      }
      WalkEnds(tokens, at, size, t, Add(offset1, len1));
      found := t.offset >= Add(offset1, len1) && Add(t.offset, t.len) <= size;
    }

    /** `add_g1_token_internal` */
    method AddTokenInternal(t: Token) returns (node: TokenNode?)
      requires Valid()
      modifies this, nodes
      ensures Valid()
      ensures
        match Insert(old(Tokens()), size, t, 0)
        case Some(tokens) => node != null && fresh(node) && node.token == t && node in nodes && Tokens() == tokens
        case None => node == null && nodes == old(nodes) && unchanged(this) && unchanged(nodes)
    {
      var found, previous, at := FindPlace(t);
      if !found {
        return null;
      }
      node := LinkIn(previous, at, t);
    }

    /** `token->next = *ptr; *ptr = token;` */
    method LinkIn(previous: TokenNode?, ghost at: nat, t: Token) returns (node: TokenNode)
      requires Valid() && LinkTo(previous, at)
      modifies this, nodes
      ensures Valid() && fresh(node) && node.token == t && node in nodes
      ensures Tokens() == old(Tokens())[..at] + [t] + old(Tokens())[at..]
    {
      ghost var was := nodes;
      node := new TokenNode(t);
      node.next := Behind(previous);
      if previous == null {
        token := node;
      } else {
        previous.next := node;
      }
      nodes := was[..at] + [node] + was[at..];
      TokensWith(was, at, node);
      hide TokensOf;
      assert nodes[at] == node;
      forall i | 0 <= i < |nodes|
        ensures nodes[i].next == At(nodes, i + 1)
      {
        assert nodes[i] == if i < at then was[i] else if i == at then node else was[i - 1];
      }
    }

    /** `*ptr = token->next;` */
    method Unlink(previous: TokenNode?, cur: TokenNode, ghost at: nat)
      requires Valid() && LinkTo(previous, at) && cur == At(nodes, at)
      modifies this, nodes
      ensures Valid() && Tokens() == old(Tokens())[..at] + old(Tokens())[at + 1..]
      ensures nodes == old(nodes)[..at] + old(nodes)[at + 1..]
    {
      ghost var was := nodes;
      if previous == null {
        token := cur.next;
      } else {
        previous.next := cur.next;
      }
      nodes := was[..at] + was[at + 1..];
      TokensWithout(was, at);
      hide TokensOf;
      forall i | 0 <= i < |nodes|
        ensures nodes[i].next == At(nodes, i + 1)
      {
        assert nodes[i] == was[if i < at then i else i + 1];
      }
    }

    /** `del_g1_token_internal` */
    method DelTokenInternal(topic: nat)
      requires Valid()
      modifies this, nodes
      ensures Valid() && Tokens() == Delete(old(Tokens()), topic)
      ensures forall node :: node in nodes ==> node in old(nodes)
    {
      hide Delete;
      var previous: TokenNode?, cur := null, token;
      ghost var tokens, at := Tokens(), 0;
      while cur != null
        invariant Valid() && unchanged(this) && unchanged(nodes)
        invariant LinkTo(previous, at) && cur == At(nodes, at)
        invariant Delete(tokens, topic) == tokens[..at] + Delete(tokens[at..], topic)
        decreases |nodes| - at
      {
        DeleteNext(tokens, topic, at);
        if topic == cur.token.topic {
          Unlink(previous, cur, at);
          return;
        }
        previous, cur, at := cur, cur.next, at + 1;
      }
      DeleteEnds(tokens, at, topic);
    }
  }

  /** An insertion whose first `at` tokens have been passed, the last of them ending at `from`. */
  function Walked(tokens: seq<Token>, at: nat, size: nat, t: Token, from: nat): Option<seq<Token>>
    requires at <= |tokens|
  {
    match Insert(tokens[at..], size, t, from)
    case Some(rest) => Some(tokens[..at] + rest)
    case None => None
  }

  lemma WalkStarts(tokens: seq<Token>, size: nat, t: Token)
    ensures Insert(tokens, size, t, 0) == Walked(tokens, 0, size, t, 0)
  {
    assert tokens[0..] == tokens;
    var r := Insert(tokens, size, t, 0);
    if r.Some? {
      assert tokens[..0] + r.value == r.value;
    }
  }

  lemma WalkStep(tokens: seq<Token>, at: nat, size: nat, t: Token, from: nat)
    requires at < |tokens|
    ensures
      var cur := tokens[at];
      Walked(tokens, at, size, t, from) ==
        if t.topic == cur.topic then None
        else if t.offset >= from && Add(t.offset, t.len) <= cur.offset then Some(tokens[..at] + [t] + tokens[at..])
        else Walked(tokens, at + 1, size, t, Add(cur.offset, cur.len))
  {
    var cur := tokens[at];
    assert tokens[at..][0] == cur && tokens[at..][1..] == tokens[at + 1..] && tokens[..at + 1] == tokens[..at] + [cur];
    Associative(tokens[..at], [t], tokens[at..]);
    var rest := Insert(tokens[at + 1..], size, t, Add(cur.offset, cur.len));
    if rest.Some? {
      Associative(tokens[..at], [cur], rest.value);
    }
  }

  lemma WalkEnds(tokens: seq<Token>, at: nat, size: nat, t: Token, from: nat)
    requires at == |tokens|
    ensures Walked(tokens, at, size, t, from) ==
      if t.offset >= from && Add(t.offset, t.len) <= size then Some(tokens[..at] + [t] + tokens[at..]) else None
  {
    assert tokens[at..] == [];
    NothingLeft(tokens[..at] + [t]);
  }

  lemma DeleteEnds(tokens: seq<Token>, at: nat, topic: nat)
    requires at == |tokens|
    ensures tokens[..at] + Delete(tokens[at..], topic) == tokens
  {
  }

  lemma DeleteNext(tokens: seq<Token>, topic: nat, i: nat)
    requires i < |tokens|
    ensures tokens[i].topic == topic ==> Delete(tokens[i..], topic) == tokens[i + 1..]
    ensures tokens[i].topic != topic ==>
      tokens[..i] + Delete(tokens[i..], topic) == tokens[..i + 1] + Delete(tokens[i + 1..], topic)
  {
    assert tokens[i..][0] == tokens[i] && tokens[i..][1..] == tokens[i + 1..];
    Associative(tokens[..i], [tokens[i]], Delete(tokens[i + 1..], topic));
    assert tokens[..i + 1] == tokens[..i] + [tokens[i]];
  }

  // ----- order -----

  lemma {:induction false} OrderedAt(tokens: seq<Token>, from: nat, size: nat, i: nat)
    requires Ordered(tokens, from, size) && i < |tokens|
    ensures from <= tokens[i].offset && 0 < tokens[i].len && tokens[i].offset + tokens[i].len <= size
  {
    if i == 0 {
      OrderedEnds(tokens[1..], tokens[0].offset + tokens[0].len, size);
    } else {
      OrderedAt(tokens[1..], tokens[0].offset + tokens[0].len, size, i - 1);
    }
  }

  lemma {:induction false} OrderedEnds(tokens: seq<Token>, from: nat, size: nat)
    requires Ordered(tokens, from, size)
    ensures from <= size
  {
    if tokens != [] {
      OrderedEnds(tokens[1..], tokens[0].offset + tokens[0].len, size);
    }
  }

  /** In an ordered list the ranges are pairwise disjoint. */
  lemma {:induction false} OrderedIsDisjoint(tokens: seq<Token>, from: nat, size: nat, i: nat, j: nat)
    requires Ordered(tokens, from, size) && i < j < |tokens|
    ensures tokens[i].offset + tokens[i].len <= tokens[j].offset && !Overlap(tokens[i], tokens[j])
  {
    if i == 0 {
      OrderedAt(tokens[1..], tokens[0].offset + tokens[0].len, size, j - 1);
    } else {
      OrderedIsDisjoint(tokens[1..], tokens[0].offset + tokens[0].len, size, i - 1, j - 1);
    }
  }

  /** Without wrap-around an accepted token keeps the list ordered, and it is put in once. */
  lemma {:induction false} InsertKeepsOrder(tokens: seq<Token>, size: nat, t: Token, from: nat)
    requires Ordered(tokens, from, size) && size < WORD && t.len > 0 && t.offset + t.len < WORD
    requires Insert(tokens, size, t, from).Some?
    ensures Ordered(Insert(tokens, size, t, from).value, from, size)
    decreases |tokens|
  {
    if tokens != [] {
      var cur := tokens[0];
      OrderedAt(tokens, from, size, 0);
      if !(t.offset >= from && Add(t.offset, t.len) <= cur.offset) {
        InsertKeepsOrder(tokens[1..], size, t, cur.offset + cur.len);
      }
    }
  }

  /** An accepted token goes between two neighbours as it is. */
  lemma {:induction false} InsertPutsIn(tokens: seq<Token>, size: nat, t: Token, from: nat) returns (i: nat)
    requires Insert(tokens, size, t, from).Some?
    ensures i <= |tokens| && Insert(tokens, size, t, from).value == tokens[..i] + [t] + tokens[i..]
    decreases |tokens|
  {
    i := 0;
    if tokens != [] && !(t.offset >= from && Add(t.offset, t.len) <= tokens[0].offset) {
      var k := InsertPutsIn(tokens[1..], size, t, Add(tokens[0].offset, tokens[0].len));
      i := k + 1;
      assert tokens[..i] == [tokens[0]] + tokens[1..][..k];
    }
  }

  lemma {:induction false} DeleteKeepsOrder(tokens: seq<Token>, topic: nat, from: nat, size: nat)
    requires Ordered(tokens, from, size)
    ensures Ordered(Delete(tokens, topic), from, size)
    decreases |tokens|
  {
    if tokens != [] {
      if tokens[0].topic == topic {
        OrderedFromEarlier(tokens[1..], tokens[0].offset + tokens[0].len, from, size);
      } else {
        DeleteKeepsOrder(tokens[1..], topic, tokens[0].offset + tokens[0].len, size);
      }
    }
  }

  lemma OrderedFromEarlier(tokens: seq<Token>, from: nat, earlier: nat, size: nat)
    requires Ordered(tokens, from, size) && earlier <= from
    ensures Ordered(tokens, earlier, size)
  {
  }

  // ----- acceptance -----

  /** A free range is found a place, and a range that is not free is refused. */
  lemma {:induction false} InsertIffFreeFrom(tokens: seq<Token>, size: nat, t: Token, from: nat)
    requires Ordered(tokens, from, size) && size < WORD && t.len > 0 && t.offset + t.len < WORD
    requires !HasTopic(tokens, t.topic)
    ensures Insert(tokens, size, t, from).Some? <==> t.offset >= from && IsFree(tokens, size, t)
    decreases |tokens|
  {
    if tokens != [] {
      var cur := tokens[0];
      OrderedAt(tokens, from, size, 0);
      assert forall i :: 0 <= i < |tokens[1..]| ==> tokens[1..][i] == tokens[i + 1];
      InsertIffFreeFrom(tokens[1..], size, t, cur.offset + cur.len);
      FreeSplits(tokens, size, t);
      if t.offset >= from && t.offset + t.len <= cur.offset {
        forall i | 0 <= i < |tokens|
          ensures !Overlap(t, tokens[i])
        {
          OrderedAt(tokens, from, size, i);
          if i > 0 {
            OrderedIsDisjoint(tokens, from, size, 0, i);
          }
        }
      }
    }
  }

  lemma FreeSplits(tokens: seq<Token>, size: nat, t: Token)
    requires tokens != []
    ensures IsFree(tokens, size, t) <==> !Overlap(t, tokens[0]) && IsFree(tokens[1..], size, t)
  {
    assert forall i :: 0 < i < |tokens| ==> tokens[i] == tokens[1..][i - 1];
  }

  /** The first token with a topic, the length of the list when there is none. */
  function FirstWith(tokens: seq<Token>, topic: nat): (k: nat)
    ensures k <= |tokens|
    ensures k < |tokens| ==> tokens[k].topic == topic
    ensures forall i :: 0 <= i < k ==> tokens[i].topic != topic
  {
    if tokens == [] || tokens[0].topic == topic then 0 else 1 + FirstWith(tokens[1..], topic)
  }

  /** The range has a place before the token in front of the one with its topic, so that the walk stops there
      and never sees that one. */
  predicate Overtakes(tokens: seq<Token>, size: nat, t: Token) {
    var k := FirstWith(tokens, t.topic);
    0 < k < |tokens| && t.offset + t.len <= tokens[k - 1].offset && IsFree(tokens[..k], size, t)
  }

  /** When an insertion succeeds, for every ordered list: a new topic needs a free range, and a topic that is
      there is refused unless its range overtakes it. */
  lemma {:induction false} InsertIff(tokens: seq<Token>, size: nat, t: Token, from: nat)
    requires Ordered(tokens, from, size) && size < WORD && t.len > 0 && t.offset + t.len < WORD
    ensures Insert(tokens, size, t, from).Some? <==>
      t.offset >= from && if HasTopic(tokens, t.topic) then Overtakes(tokens, size, t) else IsFree(tokens, size, t)
    decreases |tokens|
  {
    var k := FirstWith(tokens, t.topic);
    if k == |tokens| {
      InsertIffFreeFrom(tokens, size, t, from);
    } else if k > 0 {
      assert tokens[k].topic == t.topic;
      InsertBefore(tokens, size, t, from, k);
    } else {
      assert tokens[0].topic == t.topic;
    }
  }

  /** With the topic at `k`, the walk goes over the `k` tokens before it and must stop among them. */
  lemma {:induction false} InsertBefore(tokens: seq<Token>, size: nat, t: Token, from: nat, k: nat)
    requires Ordered(tokens, from, size) && size < WORD && t.len > 0 && t.offset + t.len < WORD
    requires 0 < k < |tokens| && tokens[k].topic == t.topic && forall i :: 0 <= i < k ==> tokens[i].topic != t.topic
    ensures Insert(tokens, size, t, from).Some? <==>
      t.offset >= from && t.offset + t.len <= tokens[k - 1].offset && IsFree(tokens[..k], size, t)
    decreases |tokens|
  {
    var cur := tokens[0];
    OrderedAt(tokens, from, size, 0);
    OrderedAt(tokens, from, size, k - 1);
    if t.offset >= from && t.offset + t.len <= cur.offset {
      BeforeAll(tokens, size, t, from, k);
    } else {
      assert tokens[..k][0] == cur && tokens[..k][1..] == tokens[1..][..k - 1];
      FreeSplits(tokens[..k], size, t);
      if k == 1 {
        assert tokens[1..][0].topic == t.topic;
      } else {
        InsertBefore(tokens[1..], size, t, cur.offset + cur.len, k - 1);
        hide IsFree;
      }
    }
  }

  /** A range in front of the first token is in front of all, and overlaps none. */
  lemma BeforeAll(tokens: seq<Token>, size: nat, t: Token, from: nat, k: nat)
    requires Ordered(tokens, from, size) && 0 < k <= |tokens| && t.offset + t.len <= tokens[0].offset
    ensures t.offset + t.len <= tokens[k - 1].offset && IsFree(tokens[..k], size, t)
  {
    OrderedAt(tokens, from, size, 0);
    forall i | 0 <= i < k
      ensures !Overlap(t, tokens[i])
      ensures t.offset + t.len <= tokens[i].offset
    {
      if i > 0 {
        OrderedIsDisjoint(tokens, from, size, 0, i);
      }
    }
  }

  predicate Distinct(tokens: seq<Token>) {
    forall i, j :: 0 <= i < j < |tokens| ==> tokens[i].topic != tokens[j].topic
  }

  /** Topics stay distinct under an insertion exactly when the new range does not overtake its own topic. */
  lemma InsertKeepsDistinct(tokens: seq<Token>, size: nat, t: Token)
    requires Ordered(tokens, 0, size) && size < WORD && t.len > 0 && t.offset + t.len < WORD && Distinct(tokens)
    ensures var r := Insert(tokens, size, t, 0);
      (r.Some? ==> Distinct(r.value)) <==> !Overtakes(tokens, size, t)
  {
    InsertIff(tokens, size, t, 0);
    var k := FirstWith(tokens, t.topic);
    assert HasTopic(tokens, t.topic) <==> k < |tokens|;
    var r := Insert(tokens, size, t, 0);
    if r.Some? {
      var i := InsertPutsIn(tokens, size, t, 0);
      DistinctWith(tokens, t, i);
    }
  }

  lemma TopicThere(tokens: seq<Token>, t: Token, i: nat, k: nat)
    requires i <= |tokens| && k < |tokens| && tokens[k].topic == t.topic
    ensures !Distinct(tokens[..i] + [t] + tokens[i..])
  {
    var new_ := tokens[..i] + [t] + tokens[i..];
    var at := if k < i then k else k + 1;
    assert new_[at] == tokens[k] && new_[i] == t && at != i;
  }

  lemma TopicAbsent(tokens: seq<Token>, t: Token, i: nat)
    requires i <= |tokens| && Distinct(tokens) && !HasTopic(tokens, t.topic)
    ensures Distinct(tokens[..i] + [t] + tokens[i..])
  {
    var new_ := tokens[..i] + [t] + tokens[i..];
    assert forall j :: 0 <= j < |new_| ==> new_[j] == if j < i then tokens[j] else if j == i then t else tokens[j - 1];
  }

  lemma DistinctWith(tokens: seq<Token>, t: Token, i: nat)
    requires i <= |tokens| && Distinct(tokens)
    ensures Distinct(tokens[..i] + [t] + tokens[i..]) <==> !HasTopic(tokens, t.topic)
  {
    hide Distinct;
    if k: nat :| k < |tokens| && tokens[k].topic == t.topic {
      TopicThere(tokens, t, i, k);
    } else {
      TopicAbsent(tokens, t, i);
    }
  }

  lemma {:induction false} DeleteKeepsDistinct(tokens: seq<Token>, topic: nat)
    requires Distinct(tokens)
    ensures Distinct(Delete(tokens, topic)) && forall t :: t in Delete(tokens, topic) ==> t in tokens
    decreases |tokens|
  {
    if tokens != [] && tokens[0].topic != topic {
      DeleteKeepsDistinct(tokens[1..], topic);
      var rest := Delete(tokens[1..], topic);
      forall j | 0 <= j < |rest|
        ensures rest[j].topic != tokens[0].topic
      {
        assert rest[j] in tokens[1..];
      }
    }
  }

  /** The insertion is right for a list: it succeeds exactly when the range is free. */
  predicate RightFor(tokens: seq<Token>, size: nat, t: Token) {
    Insert(tokens, size, t, 0).Some? <==> IsFree(tokens, size, t)
  }

  /** An insertion of a non-empty range whose topic is absent is right for every ordered list exactly
      when the end of the range does not wrap around. */
  lemma InsertIffFree(t: Token)
    requires t.len > 0 && t.offset < WORD && t.len < WORD
    ensures t.offset + t.len < 0x1_0000_0000_0000_0000 <==>
      forall tokens: seq<Token>, size: nat ::
        size < WORD && Ordered(tokens, 0, size) && !HasTopic(tokens, t.topic) ==> RightFor(tokens, size, t)
  {
    if t.offset + t.len < WORD {
      forall tokens: seq<Token>, size: nat |
          size < WORD && Ordered(tokens, 0, size) && !HasTopic(tokens, t.topic)
        ensures RightFor(tokens, size, t)
      {
        InsertIffFreeFrom(tokens, size, t, 0);
      }
    } else {
      WrappedIsAccepted(t);
    }
  }

  /** A range that wraps around is put into an empty list, although no packet can hold it. */
  lemma WrappedIsAccepted(t: Token)
    requires t.len > 0 && t.offset < WORD && t.len < WORD && t.offset + t.len >= WORD
    ensures Insert([], WORD - 1, t, 0) == Some([t]) && !IsFree([], WORD - 1, t) && Ordered([], 0, WORD - 1)
    ensures !RightFor([], WORD - 1, t) && !HasTopic([], t.topic)
  {
  }
}
