/**
 * The retrieval half of the question-answering service (app/data_processing.py):
 * `get_articles` partitions the questions by topic, makes one batched search per topic and
 * scatters each topic's responses back to the questions' original positions;
 * `build_prompts` turns each question and its retrieved articles into one prompt.
 */
module DataProcessing {
  import opened Wrappers
  import opened Models
  import Text
  import LineRegex
  import Preamble

  // ---------------------------------------------------------------------------
  // Partition and scatter-back
  // ---------------------------------------------------------------------------

  /** The vector store's batched search: topic value and embeddings to one response per embedding. */
  type Search<!E> = (string, seq<E>) -> seq<DBSearchResponse>

  /** One call of the batched search, as get_articles makes it. */
  datatype SearchCall<E> = SearchCall(topic: string, embeddings: seq<E>)

  /** How many (question, embedding) pairs `zip(queries, embeddings)` yields. */
  function Paired<E>(queries: seq<Question>, embeddings: seq<E>): (n: nat)
    ensures n <= |queries| && n <= |embeddings|
    ensures n == |queries| || n == |embeddings|
  {
    if |queries| <= |embeddings| then |queries| else |embeddings|
  }

  /** `topic_to_questions[t]` after the first n iterations of the partition loop. */
  function Group<E>(queries: seq<Question>, embeddings: seq<E>, n: nat, t: Topic): seq<(nat, E)>
    requires n <= |queries| && n <= |embeddings|
  {
    if n == 0 then []
    else
      var last := if queries[n - 1].topic == t then [(n - 1, embeddings[n - 1])] else [];
      Group(queries, embeddings, n - 1, t) + last
  }

  /** The keys of `topic_to_questions` in insertion order after the first n iterations. */
  function Topics(queries: seq<Question>, n: nat): seq<Topic>
    requires n <= |queries|
  {
    if n == 0 then []
    else
      var ts := Topics(queries, n - 1);
      if queries[n - 1].topic in ts then ts else ts + [queries[n - 1].topic]
  }

  /** How many of the first n questions have topic t. */
  function CountTopic(queries: seq<Question>, n: nat, t: Topic): nat
    requires n <= |queries|
  {
    if n == 0 then 0
    else CountTopic(queries, n - 1, t) + (if queries[n - 1].topic == t then 1 else 0)
  }

  /** The position of question i inside its topic's group: how many earlier questions share its topic. */
  function Rank(queries: seq<Question>, i: nat): nat
    requires i < |queries|
  {
    CountTopic(queries, i, queries[i].topic)
  }

  /** `indexes` of `zip(*items)`. */
  function Indexes<E>(items: seq<(nat, E)>): seq<nat>
  {
    seq(|items|, k requires 0 <= k < |items| => items[k].0)
  }

  /** `embeds` of `zip(*items)`. */
  function Embeds<E>(items: seq<(nat, E)>): seq<E>
  {
    seq(|items|, k requires 0 <= k < |items| => items[k].1)
  }

  /** The calls get_articles makes: for each topic in first-appearance order, its group's embeddings. */
  function SearchCalls<E>(queries: seq<Question>, embeddings: seq<E>): seq<SearchCall<E>>
  {
    var n := Paired(queries, embeddings);
    var ts := Topics(queries, n);
    seq(|ts|, j requires 0 <= j < |ts| =>
      SearchCall(TopicValue(ts[j]), Embeds(Group(queries, embeddings, n, ts[j]))))
  }

  /** The hit list question i receives: the Rank-th response of its topic's search, if there is one. */
  function ScatteredAt<E>(queries: seq<Question>, embeddings: seq<E>, search: Search<E>, i: nat)
    : Option<DBSearchResponse>
    requires i < |queries|
  {
    var n := Paired(queries, embeddings);
    if i >= n then None
    else
      var t := queries[i].topic;
      var response := search(TopicValue(t), Embeds(Group(queries, embeddings, n, t)));
      var k := Rank(queries, i);
      if k < |response| then Some(response[k]) else None
  }

  /** The list get_articles returns. */
  function Articles<E>(queries: seq<Question>, embeddings: seq<E>, search: Search<E>)
    : seq<Option<DBSearchResponse>>
  {
    seq(|queries|, i requires 0 <= i < |queries| => ScatteredAt(queries, embeddings, search, i))
  }

  lemma {:induction false} GroupSize<E>(queries: seq<Question>, embeddings: seq<E>, n: nat, t: Topic)
    requires n <= |queries| && n <= |embeddings|
    ensures |Group(queries, embeddings, n, t)| == CountTopic(queries, n, t)
  {
    if n > 0 {
      GroupSize(queries, embeddings, n - 1, t);
    }
  }

  /** Member k of a group is a question of that topic, with its own embedding, whose rank is k. */
  lemma {:induction false} GroupAt<E>(queries: seq<Question>, embeddings: seq<E>, n: nat, t: Topic, k: nat)
    requires n <= |queries| && n <= |embeddings|
    requires k < |Group(queries, embeddings, n, t)|
    ensures var i := Group(queries, embeddings, n, t)[k].0;
      && i < n && queries[i].topic == t
      && Group(queries, embeddings, n, t)[k].1 == embeddings[i]
      && Rank(queries, i) == k
  {
    var prev := Group(queries, embeddings, n - 1, t);
    if k < |prev| {
      GroupAt(queries, embeddings, n - 1, t, k);
    } else {
      GroupSize(queries, embeddings, n - 1, t);
    }
  }

  /** Every question of topic t among the first n sits in t's group at its rank. */
  lemma {:induction false} GroupRank<E>(queries: seq<Question>, embeddings: seq<E>, n: nat, i: nat)
    requires n <= |queries| && n <= |embeddings|
    requires i < n
    ensures var g := Group(queries, embeddings, n, queries[i].topic);
      Rank(queries, i) < |g| && g[Rank(queries, i)].0 == i
  {
    var t := queries[i].topic;
    if i == n - 1 {
      GroupSize(queries, embeddings, n - 1, t);
    } else {
      GroupRank(queries, embeddings, n - 1, i);
    }
  }

  /** Each topic's group lists exactly the indices whose question has that topic, in strictly increasing order. */
  lemma {:induction false} GroupIsTopicMembers<E>(queries: seq<Question>, embeddings: seq<E>, t: Topic)
    ensures var n := Paired(queries, embeddings);
      var g := Group(queries, embeddings, n, t);
      && (forall k :: 0 <= k < |g| ==> g[k].0 < n && queries[g[k].0].topic == t && g[k].1 == embeddings[g[k].0])
      && (forall i :: 0 <= i < n && queries[i].topic == t ==> exists k :: 0 <= k < |g| && g[k].0 == i)
      && (forall k1, k2 :: 0 <= k1 < k2 < |g| ==> g[k1].0 < g[k2].0)
  {
    var n := Paired(queries, embeddings);
    var g := Group(queries, embeddings, n, t);
    forall k | 0 <= k < |g|
      ensures g[k].0 < n && queries[g[k].0].topic == t && g[k].1 == embeddings[g[k].0]
    {
      GroupAt(queries, embeddings, n, t, k);
    }
    forall i | 0 <= i < n && queries[i].topic == t
      ensures exists k :: 0 <= k < |g| && g[k].0 == i
    {
      GroupRank(queries, embeddings, n, i);
    }
    forall k1, k2 | 0 <= k1 < k2 < |g|
      ensures g[k1].0 < g[k2].0
    {
      GroupAt(queries, embeddings, n, t, k1);
      GroupAt(queries, embeddings, n, t, k2);
      if g[k2].0 < g[k1].0 {
        RankMonotone(queries, g[k2].0, g[k1].0);
      }
    }
  }

  /** Of two questions with the same topic, the later one has the higher rank. */
  lemma {:induction false} RankMonotone(queries: seq<Question>, i: nat, i': nat)
    requires i < i' < |queries| && queries[i].topic == queries[i'].topic
    ensures Rank(queries, i) < Rank(queries, i')
  {
    CountMonotone(queries, i + 1, i', queries[i].topic);
  }

  lemma {:induction false} CountMonotone(queries: seq<Question>, m: nat, n: nat, t: Topic)
    requires m <= n <= |queries|
    ensures CountTopic(queries, m, t) <= CountTopic(queries, n, t)
    decreases n - m
  {
    if m < n {
      CountMonotone(queries, m, n - 1, t);
    }
  }

  /** A topic is among the keys exactly when some question of the first n has it. */
  lemma {:induction false} TopicsCover(queries: seq<Question>, n: nat, t: Topic)
    requires n <= |queries|
    ensures t in Topics(queries, n) <==> exists i :: 0 <= i < n && queries[i].topic == t
  {
    if n > 0 {
      TopicsCover(queries, n - 1, t);
      var ts, q := Topics(queries, n - 1), queries[n - 1].topic;
      assert Topics(queries, n) == if q in ts then ts else ts + [q];
      if exists i :: 0 <= i < n && queries[i].topic == t {
        var i :| 0 <= i < n && queries[i].topic == t;
        if i < n - 1 {
          assert t in ts;
        }
      } else {
        assert q != t;
        assert t !in ts;
      }
    }
  }

  /** No element occurs twice. */
  predicate Distinct<T(==)>(s: seq<T>)
  {
    forall a, b :: 0 <= a < b < |s| ==> s[a] != s[b]
  }

  /** In a sequence without repeats, no element occurs before its own position. */
  lemma DistinctPrefix<T>(s: seq<T>, j: nat)
    requires Distinct(s) && j < |s|
    ensures s[j] !in s[..j]
  {
    forall a | 0 <= a < j
      ensures s[..j][a] != s[j]
    {
      assert s[..j][a] == s[a];
    }
  }

  lemma {:induction false} TopicsDistinct(queries: seq<Question>, n: nat)
    requires n <= |queries|
    ensures Distinct(Topics(queries, n))
  {
    if n > 0 {
      TopicsDistinct(queries, n - 1);
      var ts, q := Topics(queries, n - 1), queries[n - 1].topic;
      if q !in ts {
        var ts' := ts + [q];
        forall a, b | 0 <= a < b < |ts'|
          ensures ts'[a] != ts'[b]
        {
          assert ts'[a] == ts[a];
          if b == |ts| {
            assert ts[a] in ts;
          } else {
            assert ts'[b] == ts[b];
          }
        }
      }
    }
  }

  /** Every question of a later key comes after some question of an earlier key. */
  lemma {:induction false} KeyOrder(queries: seq<Question>, n: nat, a: nat, b: nat, i: nat)
    requires n <= |queries|
    requires a < b < |Topics(queries, n)| && i < n && queries[i].topic == Topics(queries, n)[b]
    ensures exists i' :: 0 <= i' < i && queries[i'].topic == Topics(queries, n)[a]
  {
    var ts, ts' := Topics(queries, n - 1), Topics(queries, n);
    assert ts'[..|ts|] == ts;
    assert ts'[a] == ts[a];
    if b < |ts| {
      assert ts'[b] == ts[b];
      if i == n - 1 {
        TopicsCover(queries, n - 1, ts[b]);
        var j :| 0 <= j < n - 1 && queries[j].topic == ts[b];
        KeyOrder(queries, n - 1, a, b, j);
        var i' :| 0 <= i' < j && queries[i'].topic == ts[a];
        assert i' < i;
      } else {
        KeyOrder(queries, n - 1, a, b, i);
      }
    } else {
      // ts'[b] is the new key, so no earlier question has it; ts'[a] is an older key.
      TopicsCover(queries, n - 1, ts'[b]);
      TopicsCover(queries, n - 1, ts[a]);
      assert ts[a] in ts;
      var j :| 0 <= j < n - 1 && queries[j].topic == ts[a];
      assert i == n - 1;
      assert j < i;
    }
  }

  /**
   * The keys are the distinct topics of the first n questions, each once, ordered by first
   * appearance: every question of a later key comes after some question of an earlier key.
   */
  lemma TopicsFirstAppearance(queries: seq<Question>, n: nat)
    requires n <= |queries|
    ensures var ts := Topics(queries, n);
      && Distinct(ts)
      && (forall t :: t in ts <==> exists i :: 0 <= i < n && queries[i].topic == t)
      && (forall a, b, i :: 0 <= a < b < |ts| && 0 <= i < n && queries[i].topic == ts[b] ==>
            AppearsBefore(queries, ts[a], i))
  {
    TopicsDistinct(queries, n);
    forall t
      ensures t in Topics(queries, n) <==> exists i :: 0 <= i < n && queries[i].topic == t
    {
      TopicsCover(queries, n, t);
    }
    KeysOrdered(queries, n);
  }

  lemma KeysOrdered(queries: seq<Question>, n: nat)
    requires n <= |queries|
    ensures var ts := Topics(queries, n);
      forall a, b, i :: 0 <= a < b < |ts| && 0 <= i < n && queries[i].topic == ts[b] ==>
        AppearsBefore(queries, ts[a], i)
  {
    var ts := Topics(queries, n);
    forall a, b, i | 0 <= a < b < |ts| && 0 <= i < n && queries[i].topic == ts[b]
      ensures AppearsBefore(queries, ts[a], i)
    {
      KeyOrder(queries, n, a, b, i);
    }
  }

  /** Some question before question i has topic t. */
  predicate AppearsBefore(queries: seq<Question>, t: Topic, i: nat)
  {
    exists i' :: 0 <= i' < i && i' < |queries| && queries[i'].topic == t
  }

  /** get_articles calls `search` once per distinct topic and never twice for one topic. */
  lemma SearchOncePerTopic<E>(queries: seq<Question>, embeddings: seq<E>)
    ensures var calls := SearchCalls(queries, embeddings);
      && (forall a, b :: 0 <= a < b < |calls| ==> calls[a].topic != calls[b].topic)
      && (forall i :: 0 <= i < Paired(queries, embeddings) ==>
            exists j :: 0 <= j < |calls| && calls[j].topic == TopicValue(queries[i].topic))
  {
    var n := Paired(queries, embeddings);
    var ts := Topics(queries, n);
    var calls := SearchCalls(queries, embeddings);
    TopicsDistinct(queries, n);
    forall a, b | 0 <= a < b < |calls|
      ensures calls[a].topic != calls[b].topic
    {
      assert a < b < |ts|;
      TopicValueInjective(ts[a], ts[b]);
    }
    forall i | 0 <= i < n
      ensures exists j :: 0 <= j < |calls| && calls[j].topic == TopicValue(queries[i].topic)
    {
      TopicsCover(queries, n, queries[i].topic);
      var j :| 0 <= j < |ts| && ts[j] == queries[i].topic;
      assert calls[j].topic == TopicValue(queries[i].topic);
    }
  }

  /**
   * Scatter: the k-th member of a topic's group receives the k-th response of that topic's
   * search; members beyond the response's length keep None.
   */
  lemma ScatterKth<E>(queries: seq<Question>, embeddings: seq<E>, search: Search<E>, t: Topic, k: nat)
    requires var n := Paired(queries, embeddings); k < |Group(queries, embeddings, n, t)|
    ensures var n := Paired(queries, embeddings);
      var g := Group(queries, embeddings, n, t);
      var response := search(TopicValue(t), Embeds(g));
      g[k].0 < |queries| &&
      Articles(queries, embeddings, search)[g[k].0] == (if k < |response| then Some(response[k]) else None)
  {
    var n := Paired(queries, embeddings);
    GroupAt(queries, embeddings, n, t, k);
  }

  /**
   * The scatter-back state: question i holds its final hit list once its topic is among the
   * topics `done`, or is t with rank below k; every other slot still holds None.
   */
  predicate Filled<E>(queries: seq<Question>, embeddings: seq<E>, search: Search<E>,
                      res: seq<Option<DBSearchResponse>>, done: seq<Topic>, t: Topic, k: nat)
  {
    var n := Paired(queries, embeddings);
    |res| == |queries| &&
    forall i :: 0 <= i < |res| ==>
      res[i] == if i < n && (queries[i].topic in done || (queries[i].topic == t && Rank(queries, i) < k))
                then ScatteredAt(queries, embeddings, search, i) else None
  }

  /** Between topics: exactly the questions whose topic is among `done` hold their final hit list. */
  predicate Settled<E>(queries: seq<Question>, embeddings: seq<E>, search: Search<E>,
                       res: seq<Option<DBSearchResponse>>, done: seq<Topic>)
  {
    var n := Paired(queries, embeddings);
    |res| == |queries| &&
    forall i :: 0 <= i < |res| ==>
      res[i] == if i < n && queries[i].topic in done then ScatteredAt(queries, embeddings, search, i) else None
  }

  /** Once t's responses or t's group run out, t's questions are all settled. */
  lemma FilledTopic<E>(queries: seq<Question>, embeddings: seq<E>, search: Search<E>,
                       res: seq<Option<DBSearchResponse>>, done: seq<Topic>, t: Topic, k: nat)
    requires var g := Group(queries, embeddings, Paired(queries, embeddings), t);
      k == |g| || k == |search(TopicValue(t), Embeds(g))|
    requires Filled(queries, embeddings, search, res, done, t, k)
    ensures Settled(queries, embeddings, search, res, done + [t])
  {
    var n := Paired(queries, embeddings);
    forall i | 0 <= i < |res|
      ensures res[i] == if i < n && queries[i].topic in done + [t]
                        then ScatteredAt(queries, embeddings, search, i) else None
    {
      if i < n && queries[i].topic == t && queries[i].topic !in done {
        GroupRank(queries, embeddings, n, i);
      }
    }
  }

  /** Writing t's k-th response into the slot of t's k-th member settles that member. */
  lemma FilledStep<E>(queries: seq<Question>, embeddings: seq<E>, search: Search<E>,
                      res: seq<Option<DBSearchResponse>>, done: seq<Topic>, t: Topic, k: nat)
    requires t !in done
    requires var g := Group(queries, embeddings, Paired(queries, embeddings), t);
      k < |g| && k < |search(TopicValue(t), Embeds(g))|
    requires Filled(queries, embeddings, search, res, done, t, k)
    ensures var g := Group(queries, embeddings, Paired(queries, embeddings), t);
      && g[k].0 < |res|
      && Filled(queries, embeddings, search, res[g[k].0 := Some(search(TopicValue(t), Embeds(g))[k])], done, t, k + 1)
  {
    var n := Paired(queries, embeddings);
    var g := Group(queries, embeddings, n, t);
    GroupAt(queries, embeddings, n, t, k);
    var i0 := g[k].0;
    var res' := res[i0 := Some(search(TopicValue(t), Embeds(g))[k])];
    forall i | 0 <= i < |res'|
      ensures res'[i] == if i < n && (queries[i].topic in done || (queries[i].topic == t && Rank(queries, i) < k + 1))
                         then ScatteredAt(queries, embeddings, search, i) else None
    {
      if i != i0 && i < n && queries[i].topic == t && Rank(queries, i) == k {
        GroupRank(queries, embeddings, n, i);
      }
    }
  }

  /** With every topic done, the slots are exactly get_articles' result. */
  lemma FilledAll<E>(queries: seq<Question>, embeddings: seq<E>, search: Search<E>,
                     res: seq<Option<DBSearchResponse>>)
    requires Settled(queries, embeddings, search, res, Topics(queries, Paired(queries, embeddings)))
    ensures res == Articles(queries, embeddings, search)
  {
    var n := Paired(queries, embeddings);
    forall i | 0 <= i < n
      ensures queries[i].topic in Topics(queries, n)
    {
      TopicsCover(queries, n, queries[i].topic);
    }
  }

  /** `topic_to_questions` and its insertion order after the partition loop. */
  method PartitionByTopic<E>(queries: seq<Question>, embeddings: seq<E>)
    returns (groups: map<Topic, seq<(nat, E)>>, keys: seq<Topic>)
    ensures keys == Topics(queries, Paired(queries, embeddings))
    ensures forall t :: t in groups <==> t in keys
    ensures forall t :: t in groups ==> groups[t] == Group(queries, embeddings, Paired(queries, embeddings), t)
  {
    var n := Paired(queries, embeddings);
    groups, keys := map[], [];
    var index := 0;
    while index < n
      invariant index <= n
      invariant Partitioned(queries, embeddings, index, groups, keys)
    {
      var t := queries[index].topic;
      ghost var before, keysBefore := groups, keys;
      if t !in groups {
        groups := groups[t := []];
        keys := keys + [t];
      }
      ghost var created := groups;
      groups := groups[t := groups[t] + [(index, embeddings[index])]];
      GroupsStep(queries, embeddings, index, before, created, groups, keysBefore, keys);
      index := index + 1;
    }
  }

  /**
   * After the first `index` questions: the keys are their topics in insertion order, and each
   * key's list is its topic's group.
   */
  ghost predicate Partitioned<E>(queries: seq<Question>, embeddings: seq<E>, index: nat,
                                 groups: map<Topic, seq<(nat, E)>>, keys: seq<Topic>)
    requires index <= |queries| && index <= |embeddings|
  {
    && keys == Topics(queries, index)
    && (forall t :: t in groups <==> t in keys)
    && (forall t :: t !in groups ==> Group(queries, embeddings, index, t) == [])
    && (forall t :: t in groups ==> groups[t] == Group(queries, embeddings, index, t))
  }

  /**
   * One pass of the partition loop: appending question index to its topic's list (created, and
   * its topic added to the keys, when new) keeps every list equal to its topic's group.
   */
  lemma GroupsStep<E>(queries: seq<Question>, embeddings: seq<E>, index: nat,
                      before: map<Topic, seq<(nat, E)>>, created: map<Topic, seq<(nat, E)>>,
                      after: map<Topic, seq<(nat, E)>>, keysBefore: seq<Topic>, keysAfter: seq<Topic>)
    requires index < |queries| && index < |embeddings|
    requires Partitioned(queries, embeddings, index, before, keysBefore)
    requires var t := queries[index].topic;
      && created == (if t in before then before else before[t := []])
      && after == created[t := created[t] + [(index, embeddings[index])]]
      && keysAfter == if t in before then keysBefore else keysBefore + [t]
    ensures Partitioned(queries, embeddings, index + 1, after, keysAfter)
  {
    var topic := queries[index].topic;
    assert keysAfter == Topics(queries, index + 1) by {
      assert topic in before <==> topic in keysBefore;
    }
    forall t
      ensures t in after <==> t in keysAfter
    {
      assert t in before <==> t in keysBefore;
    }
    forall t | t !in after
      ensures Group(queries, embeddings, index + 1, t) == []
    {
      GroupNext(queries, embeddings, index, t);
      assert t != topic && t !in before;
    }
    forall t | t in after
      ensures after[t] == Group(queries, embeddings, index + 1, t)
    {
      GroupNext(queries, embeddings, index, t);
      if t != topic {
        assert after[t] == before[t];
      }
    }
  }

  /** The group of t after question n: the group before it, plus question n when it has topic t. */
  lemma GroupNext<E>(queries: seq<Question>, embeddings: seq<E>, n: nat, t: Topic)
    requires n < |queries| && n < |embeddings|
    ensures Group(queries, embeddings, n + 1, t)
      == Group(queries, embeddings, n, t) + if queries[n].topic == t then [(n, embeddings[n])] else []
  {
  }

  /** The inner loop of get_articles: `result[index] = resp` for each pair of `zip(indexes, db_response)`. */
  method ScatterTopic<E>(queries: seq<Question>, embeddings: seq<E>, search: Search<E>,
                         res: array<Option<DBSearchResponse>>, ghost done: seq<Topic>, t: Topic,
                         indexes: seq<nat>, dbResponse: seq<DBSearchResponse>)
    requires var g := Group(queries, embeddings, Paired(queries, embeddings), t);
      indexes == Indexes(g) && dbResponse == search(TopicValue(t), Embeds(g))
    requires t !in done
    requires Settled(queries, embeddings, search, res[..], done)
    modifies res
    ensures Settled(queries, embeddings, search, res[..], done + [t])
  {
    var n := Paired(queries, embeddings);
    assert Filled(queries, embeddings, search, res[..], done, t, 0);
    var k := 0;
    while k < |indexes| && k < |dbResponse|
      invariant k <= |indexes| && k <= |dbResponse|
      invariant Filled(queries, embeddings, search, res[..], done, t, k)
    {
      FilledStep(queries, embeddings, search, res[..], done, t, k);
      res[indexes[k]] := Some(dbResponse[k]);
      k := k + 1;
    }
    FilledTopic(queries, embeddings, search, res[..], done, t, k);
  }

  /** One more search call: the next topic's, with its group's embeddings. */
  lemma CallsStep<E>(queries: seq<Question>, embeddings: seq<E>, calls: seq<SearchCall<E>>, j: nat)
    requires var ts := Topics(queries, Paired(queries, embeddings));
      j < |ts| && calls == SearchCalls(queries, embeddings)[..j]
    ensures var n := Paired(queries, embeddings);
      var t := Topics(queries, n)[j];
      calls + [SearchCall(TopicValue(t), Embeds(Group(queries, embeddings, n, t)))]
        == SearchCalls(queries, embeddings)[..j + 1]
  {
    var all := SearchCalls(queries, embeddings);
    assert all[..j + 1] == all[..j] + [all[j]];
  }

  /** Once every topic is searched, the calls are all of them. */
  lemma CallsAll<E>(queries: seq<Question>, embeddings: seq<E>, calls: seq<SearchCall<E>>)
    requires calls == SearchCalls(queries, embeddings)[..|Topics(queries, Paired(queries, embeddings))|]
    ensures calls == SearchCalls(queries, embeddings)
  {
    var all := SearchCalls(queries, embeddings);
    assert all[..|all|] == all;
  }

  /** Extending a prefix of s by its next element. */
  lemma PrefixStep<T>(s: seq<T>, p: seq<T>, j: nat)
    requires j <= |s| && p == s[..j]
    ensures j < |s| ==> p + [s[j]] == s[..j + 1]
    ensures j == |s| ==> p == s
  {
  }

  /**
   * `get_articles`: the list has one slot per question; question i (among those `zip` pairs
   * with an embedding) receives the response at its rank in its topic's search, and None when
   * that search returned fewer responses (or when it has no embedding). One search is made
   * per topic, in first-appearance order.
   */
  method GetArticles<E>(queries: seq<Question>, embeddings: seq<E>, search: Search<E>)
    returns (result: seq<Option<DBSearchResponse>>, calls: seq<SearchCall<E>>)
    ensures |result| == |queries|
    ensures result == Articles(queries, embeddings, search)
    ensures calls == SearchCalls(queries, embeddings)
    ensures |queries| == 0 ==> result == [] && calls == []
  {
    var topicToQuestions, keys := PartitionByTopic(queries, embeddings);
    var res := new Option<DBSearchResponse>[|queries|](_ => None);
    calls := SearchTopics(queries, embeddings, search, topicToQuestions, keys, res);
    result := res[..];
    FilledAll(queries, embeddings, search, result);
    if |queries| == 0 {
      assert keys == Topics(queries, 0) == [];
    }
  }

  /**
   * The `for topic, items in topic_to_questions.items()` loop of `get_articles`: one search per
   * topic in insertion order, each response written into the slot of its question.
   */
  method SearchTopics<E>(queries: seq<Question>, embeddings: seq<E>, search: Search<E>,
                         topicToQuestions: map<Topic, seq<(nat, E)>>, keys: seq<Topic>,
                         res: array<Option<DBSearchResponse>>)
    returns (calls: seq<SearchCall<E>>)
    requires keys == Topics(queries, Paired(queries, embeddings))
    requires forall t :: t in topicToQuestions <==> t in keys
    requires forall t :: t in topicToQuestions ==>
      topicToQuestions[t] == Group(queries, embeddings, Paired(queries, embeddings), t)
    requires Settled(queries, embeddings, search, res[..], [])
    modifies res
    ensures Settled(queries, embeddings, search, res[..], keys)
    ensures calls == SearchCalls(queries, embeddings)
  {
    TopicsDistinct(queries, Paired(queries, embeddings));
    calls := [];
    ghost var done: seq<Topic> := [];
    var j := 0;
    while j < |keys|
      invariant j <= |keys|
      invariant calls == SearchCalls(queries, embeddings)[..j]
      invariant done == keys[..j]
      invariant Settled(queries, embeddings, search, res[..], done)
    {
      var t := keys[j];
      var items := topicToQuestions[t];
      var indexes, embeds := Indexes(items), Embeds(items);
      var dbResponse := search(TopicValue(t), embeds);
      CallsStep(queries, embeddings, calls, j);
      calls := calls + [SearchCall(TopicValue(t), embeds)];
      DistinctPrefix(keys, j);
      ScatterTopic(queries, embeddings, search, res, done, t, indexes, dbResponse);
      PrefixStep(keys, done, j);
      done := done + [t];
      j := j + 1;
    }
    PrefixStep(keys, done, j);
    CallsAll(queries, embeddings, calls);
  }

  // ---------------------------------------------------------------------------
  // Prompt assembly
  // ---------------------------------------------------------------------------

  function InputLine(query: string): string
  {
    "<input>" + query + "</input>"
  }

  function ArticleLine(item: DBSearchResponseItem): string
  {
    "<article>" + item.entity.text + "</article>"
  }

  function ArticleLines(items: seq<DBSearchResponseItem>): seq<string>
  {
    seq(|items|, k requires 0 <= k < |items| => ArticleLine(items[k]))
  }

  /** The rows joined into one prompt: preamble, `Input:`, the query, then one article row per hit. */
  function PromptRows(query: string, response: DBSearchResponse): seq<string>
  {
    [Preamble.Prompt, "Input:", InputLine(query)] + ArticleLines(response.items)
  }

  /** One prompt: the rows joined by newlines; the query is inserted verbatim. */
  function BuildPrompt(query: string, response: DBSearchResponse): string
  {
    Text.JoinLines(PromptRows(query, response))
  }

  /** Raised when build_prompts reads `.items` of a question's missing (None) hit list. */
  datatype PromptError = MissingArticles(index: nat)

  /**
   * `build_prompts`: one prompt per (query, hit list) pair of `zip`, in order; the first pair
   * whose hit list is None raises.
   */
  function BuildPrompts(queries: seq<string>, articles: seq<Option<DBSearchResponse>>)
    : (r: Result<seq<string>, PromptError>)
    ensures var n := if |queries| <= |articles| then |queries| else |articles|;
      && (r.Success? <==> forall i :: 0 <= i < n ==> articles[i].Some?)
      && (r.Success? ==>
            && |r.value| == n
            && forall i :: 0 <= i < n ==> r.value[i] == BuildPrompt(queries[i], articles[i].value))
      && (r.Failure? ==>
            && r.error.index < n && articles[r.error.index].None?
            && forall i :: 0 <= i < r.error.index ==> articles[i].Some?)
  {
    var n := if |queries| <= |articles| then |queries| else |articles|;
    match FirstMissing(articles, n)
    case Some(k) => Failure(MissingArticles(k))
    case None => Success(seq(n, i requires 0 <= i < n => BuildPrompt(queries[i], articles[i].value)))
  }

  /** The first of the first n hit lists that is None, if any. */
  function FirstMissing(articles: seq<Option<DBSearchResponse>>, n: nat): (r: Option<nat>)
    requires n <= |articles|
    ensures r.None? <==> forall i :: 0 <= i < n ==> articles[i].Some?
    ensures r.Some? ==> r.value < n && articles[r.value].None? && forall i :: 0 <= i < r.value ==> articles[i].Some?
  {
    if n == 0 then None
    else
      match FirstMissing(articles, n - 1)
      case Some(k) => Some(k)
      case None => if articles[n - 1].None? then Some(n - 1) else None
  }

  // ---------------------------------------------------------------------------
  // What the generation backend reads back out of a prompt
  // ---------------------------------------------------------------------------

  /** The texts of the hits that are non-empty (an empty `<article></article>` does not match `.+`). */
  function NonEmptyTexts(items: seq<DBSearchResponseItem>): (ts: seq<string>)
    ensures |ts| <= |items|
  {
    if |items| == 0 then []
    else (if items[0].entity.text != "" then [items[0].entity.text] else []) + NonEmptyTexts(items[1..])
  }

  predicate NoNewlineTexts(items: seq<DBSearchResponseItem>)
  {
    forall k :: 0 <= k < |items| ==> '\n' !in items[k].entity.text
  }

  /** The lines the article rows contribute once the prompt is split at line breaks. */
  function ArticleTail(items: seq<DBSearchResponseItem>): seq<string>
  {
    if |items| == 0 then [] else Text.Lines(Text.JoinLines(ArticleLines(items)))
  }

  /** How `'\n'.join` lays out the rows of a prompt. */
  lemma JoinRows(preamble: string, header: string, il: string, rows: seq<string>)
    ensures Text.JoinLines([preamble, header, il] + rows)
      == preamble + "\n" + (header + "\n" + (if |rows| == 0 then il else il + "\n" + Text.JoinLines(rows)))
  {
    var r2 := [il] + rows;
    var r1 := [header] + r2;
    assert [preamble, header, il] + rows == [preamble] + r1;
    Text.JoinLinesCons(preamble, r1);
    Text.JoinLinesCons(header, r2);
    if |rows| > 0 {
      Text.JoinLinesCons(il, rows);
    } else {
      assert r2 == [il];
    }
  }

  /** The lines of the query row followed by the article rows. */
  lemma LastRowsLines(il: string, rows: seq<string>)
    requires '\n' !in il
    ensures Text.Lines(if |rows| == 0 then il else il + "\n" + Text.JoinLines(rows))
      == [il] + (if |rows| == 0 then [] else Text.Lines(Text.JoinLines(rows)))
  {
    Text.LinesSingle(il);
    if |rows| > 0 {
      Text.LinesAppend(il, Text.JoinLines(rows));
    }
  }

  /** A newline-free row in front of more rows is one line of its own. */
  lemma LeadingRowLines(row: string, rest: string)
    requires '\n' !in row
    ensures Text.Lines(row + "\n" + rest) == [row] + Text.Lines(rest)
  {
    Text.LinesSingle(row);
    Text.LinesAppend(row, rest);
  }

  /** Rows headed by any preamble split into the preamble's lines, the header row, the query row and the article rows' lines. */
  lemma RowsSplit(preamble: string, header: string, il: string, rows: seq<string>)
    requires '\n' !in header && '\n' !in il
    ensures Text.Lines(Text.JoinLines([preamble, header, il] + rows))
      == Text.Lines(preamble) + [header, il] + (if |rows| == 0 then [] else Text.Lines(Text.JoinLines(rows)))
  {
    JoinRows(preamble, header, il, rows);
    var tailRows: seq<string> := if |rows| == 0 then [] else Text.Lines(Text.JoinLines(rows));
    var last := if |rows| == 0 then il else il + "\n" + Text.JoinLines(rows);
    LastRowsLines(il, rows);
    LeadingRowLines(header, last);
    Text.LinesAppend(preamble, header + "\n" + last);
    Text.Assoc([header], [il], tailRows);
    assert [header] + [il] == [header, il];
    Text.Assoc(Text.Lines(preamble), [header, il], tailRows);
  }

  /** A prompt splits into the preamble's lines, `Input:`, the query row, then the article rows' lines. */
  lemma PromptSplit(query: string, response: DBSearchResponse)
    requires '\n' !in query
    ensures Text.Lines(BuildPrompt(query, response))
      == Preamble.Lines + ["Input:", InputLine(query)] + ArticleTail(response.items)
  {
    var il := InputLine(query);
    assert '\n' !in il by {
      forall k | 0 <= k < |il|
        ensures il[k] != '\n'
      {
        if 7 <= k < 7 + |query| {
          assert il[k] == query[k - 7];
        }
      }
    }
    RowsSplit(Preamble.Prompt, "Input:", il, ArticleLines(response.items));
    Preamble.PromptLines();
  }

  /** With newline-free texts, each article row is one line. */
  lemma ArticleTailRows(items: seq<DBSearchResponseItem>)
    requires NoNewlineTexts(items)
    ensures ArticleTail(items) == ArticleLines(items)
  {
    var rows := ArticleLines(items);
    if |rows| > 0 {
      forall k | 0 <= k < |rows|
        ensures '\n' !in rows[k]
      {
        assert rows[k] == "<article>" + items[k].entity.text + "</article>";
      }
      Text.LinesOfJoin(rows);
    }
  }

  /** With newline-free texts, every article row is one line of the prompt. */
  lemma PromptLines(query: string, response: DBSearchResponse)
    requires '\n' !in query
    requires NoNewlineTexts(response.items)
    ensures Text.Lines(BuildPrompt(query, response))
      == Preamble.Lines + ["Input:", InputLine(query)] + ArticleLines(response.items)
  {
    PromptSplit(query, response);
    ArticleTailRows(response.items);
  }

  /** The article rows yield exactly the non-empty texts, in order (`<article></article>` does not match). */
  lemma {:induction false} ArticleRowsMatches(items: seq<DBSearchResponseItem>)
    ensures LineRegex.MatchesInLines(LineRegex.ArticleTag, ArticleLines(items)) == NonEmptyTexts(items)
    decreases |items|
  {
    if |items| > 0 {
      var rows := ArticleLines(items);
      var pat := LineRegex.ArticleTag;
      assert rows[1..] == ArticleLines(items[1..]);
      ArticleRowsMatches(items[1..]);
      var text := items[0].entity.text;
      assert rows[0] == pat.open + text + pat.close;
      if text == "" {
        LineRegex.TagPatterns();
        assert rows[0] == "" + pat.open + "" + pat.close + "";
        LineRegex.TagLineNoMatch(rows[0], "", "", "", pat, pat);
      } else {
        LineRegex.WholeLineMatch(rows[0], text, pat);
      }
    }
  }

  /** The matches of head lines, two middle lines and tail lines, in that order. */
  lemma MatchesAround(pat: LineRegex.Pattern, head: seq<string>, x: string, y: string, tail: seq<string>)
    ensures LineRegex.MatchesInLines(pat, head + [x, y] + tail)
      == LineRegex.MatchesInLines(pat, head) + LineRegex.MatchesFrom(x, pat, 0)
         + LineRegex.MatchesFrom(y, pat, 0) + LineRegex.MatchesInLines(pat, tail)
  {
    LineRegex.MatchesInLinesAppend(pat, head, [x, y]);
    LineRegex.MatchesInLinesAppend(pat, head + [x, y], tail);
    assert [x, y][1..] == [y];
    assert LineRegex.MatchesInLines(pat, [y]) == LineRegex.MatchesFrom(y, pat, 0);
    assert LineRegex.MatchesInLines(pat, [x, y])
      == LineRegex.MatchesFrom(x, pat, 0) + LineRegex.MatchesFrom(y, pat, 0);
  }

  /** The matches in a prompt: the preamble's, the two rows after it, then the article rows'. */
  lemma PromptMatches(pat: LineRegex.Pattern, query: string, response: DBSearchResponse)
    requires '\n' !in query
    requires NoNewlineTexts(response.items)
    ensures LineRegex.FindAll(pat, BuildPrompt(query, response))
      == LineRegex.MatchesInLines(pat, Preamble.Lines) + LineRegex.MatchesFrom("Input:", pat, 0)
         + LineRegex.MatchesFrom(InputLine(query), pat, 0)
         + LineRegex.MatchesInLines(pat, ArticleLines(response.items))
  {
    PromptLines(query, response);
    MatchesAround(pat, Preamble.Lines, "Input:", InputLine(query), ArticleLines(response.items));
  }

  /** The `Input:` row matches neither tag. */
  lemma InputHeaderNoMatch(pat: LineRegex.Pattern)
    requires pat == LineRegex.InputTag || pat == LineRegex.ArticleTag
    ensures LineRegex.MatchesFrom("Input:", pat, 0) == []
  {
    LineRegex.TagPatterns();
    LineRegex.NoAngleNoMatch("Input:", pat);
  }

  /** A tag-free query's row holds no article match. */
  lemma InputRowNoArticle(query: string)
    requires '<' !in query
    ensures LineRegex.MatchesFrom(InputLine(query), LineRegex.ArticleTag, 0) == []
  {
    var tag := LineRegex.InputTag;
    LineRegex.TagPatterns();
    assert InputLine(query) == "" + tag.open + query + tag.close + "";
    LineRegex.TagLineNoMatch(InputLine(query), "", query, "", tag, LineRegex.ArticleTag);
  }

  /** The row of an empty query, `<input></input>`, does not match `<input>(.+)</input>`. */
  lemma EmptyInputRow(row: string)
    requires row == InputLine("")
    ensures LineRegex.MatchesFrom(row, LineRegex.InputTag, 0) == []
  {
    var tag := LineRegex.InputTag;
    LineRegex.TagPatterns();
    assert row == "" + tag.open + "" + tag.close + "";
    LineRegex.TagLineNoMatch(row, "", "", "", tag, tag);
  }

  /** Article rows with tag-free texts hold no `<input>` match. */
  lemma ArticleRowsNoInput(items: seq<DBSearchResponseItem>)
    requires forall k :: 0 <= k < |items| ==> '<' !in items[k].entity.text
    ensures LineRegex.MatchesInLines(LineRegex.InputTag, ArticleLines(items)) == []
  {
    var rows := ArticleLines(items);
    var tag := LineRegex.ArticleTag;
    LineRegex.TagPatterns();
    forall k | 0 <= k < |rows|
      ensures LineRegex.MatchesFrom(rows[k], LineRegex.InputTag, 0) == []
    {
      var text := items[k].entity.text;
      assert rows[k] == "" + tag.open + text + tag.close + "";
      LineRegex.TagLineNoMatch(rows[k], "", text, "", tag, LineRegex.InputTag);
    }
    LineRegex.MatchesInLinesNone(LineRegex.InputTag, rows);
  }

  /**
   * The backend's `re.search('<input>(.+)</input>', prompt).group(1)` gives back a
   * non-empty, single-line query.
   */
  lemma PromptQueryExtraction(query: string, response: DBSearchResponse)
    requires query != "" && '\n' !in query
    ensures LineRegex.Search(LineRegex.InputTag, BuildPrompt(query, response)) == Some(query)
  {
    var pat := LineRegex.InputTag;
    var tail := LineRegex.MatchesInLines(pat, ArticleTail(response.items));
    PromptSplit(query, response);
    MatchesAround(pat, Preamble.Lines, "Input:", InputLine(query), ArticleTail(response.items));
    Preamble.NoMatches(pat);
    InputHeaderNoMatch(pat);
    LineRegex.WholeLineMatch(InputLine(query), query, pat);
    assert LineRegex.FindAll(pat, BuildPrompt(query, response)) == [] + [] + [query] + tail;
  }

  /**
   * An empty query leaves `<input></input>`, which `.+` cannot match: with tag-free article
   * texts the prompt has no `<input>` match at all.
   */
  lemma EmptyQueryNoInputMatch(response: DBSearchResponse)
    requires NoNewlineTexts(response.items)
    requires forall k :: 0 <= k < |response.items| ==> '<' !in response.items[k].entity.text
    ensures LineRegex.Search(LineRegex.InputTag, BuildPrompt("", response)) == None
  {
    var pat := LineRegex.InputTag;
    PromptMatches(pat, "", response);
    Preamble.NoMatches(pat);
    InputHeaderNoMatch(pat);
    EmptyInputRow(InputLine(""));
    ArticleRowsNoInput(response.items);
  }

  /**
   * The backend's `re.findall('<article>(.+)</article>', prompt)` gives back the non-empty
   * article texts, in order, when neither the query nor a text breaks a line and the query
   * holds no tag.
   */
  lemma PromptArticlesExtraction(query: string, response: DBSearchResponse)
    requires '\n' !in query && '<' !in query
    requires NoNewlineTexts(response.items)
    ensures LineRegex.FindAll(LineRegex.ArticleTag, BuildPrompt(query, response)) == NonEmptyTexts(response.items)
  {
    var pat := LineRegex.ArticleTag;
    PromptMatches(pat, query, response);
    Preamble.NoMatches(pat);
    InputHeaderNoMatch(pat);
    InputRowNoArticle(query);
    ArticleRowsMatches(response.items);
  }
}
