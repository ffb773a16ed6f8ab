/**
 * playCmd of cmds.js: every record is asked once, in random order, until one is answered wrongly.
 * The game holds the records still to be answered and the running score; each round draws
 * floor(random * |pool|), asks that record, and on a right answer counts it and splices it out.
 * Math.random() is replaced by the draws the caller supplies, one per round, each in [0, 1).
 */
module Play {
  import opened JsText
  import opened QuizModel
  import opened Cmds

  /** rand(min, max) for a given draw of Math.random(). */
  function Rand(draw: real, min: real, max: real): real
  {
    draw * (max - min) + min
  }

  /** The index a round asks: floor(rand(0, n)); for a non-empty pool it is always a valid index. */
  function PickIndex(draw: real, n: nat): (i: int)
    requires 0.0 <= draw < 1.0
    ensures n > 0 ==> 0 <= i < n
    ensures n == 0 ==> i == 0
  {
    var x := Rand(draw, 0.0, n as real);
    assert n as real - x == (1.0 - draw) * n as real;
    x.Floor
  }

  /** One round of input: the random draw that picks the question, then the line the user types. */
  datatype Round = Round(draw: real, line: string)

  predicate ValidDraws(rounds: seq<Round>)
  {
    forall k :: 0 <= k < |rounds| ==> 0.0 <= rounds[k].draw < 1.0
  }

  lemma DrawsTail(rounds: seq<Round>)
    requires ValidDraws(rounds) && rounds != []
    ensures ValidDraws(rounds[1..])
  {
    forall k | 0 <= k < |rounds[1..]| ensures 0.0 <= rounds[1..][k].draw < 1.0 {
      assert rounds[1..][k] == rounds[k + 1];
    }
  }

  /** How a game stands when it stops: all answered, one answered wrongly, or waiting for a reply. */
  datatype Phase = Won | Lost | Pending

  /** A game's outcome: its phase, its score, the records left unanswered and what it printed. */
  datatype GameResult = GameResult(phase: Phase, score: nat, left: seq<Quiz>, out: seq<Event>)

  /** The pool without the record at index i, the others in their order (splice(i, 1)). */
  function Splice(pool: seq<Quiz>, i: nat): (r: seq<Quiz>)
    requires i < |pool|
    ensures |r| == |pool| - 1
  {
    pool[..i] + pool[i + 1..]
  }

  /** Splicing out index i removes exactly one copy of pool[i]. */
  lemma SpliceMultiset(pool: seq<Quiz>, i: nat)
    requires i < |pool|
    ensures multiset(Splice(pool, i)) + multiset{pool[i]} == multiset(pool)
  {
    assert pool == pool[..i] + [pool[i]] + pool[i + 1..];
  }

  /**
   * The game from a given state on, playing the rounds in order. The game is over when the score
   * reaches the number of records the game started with.
   */
  function Run(pool: seq<Quiz>, score: nat, count: nat, rounds: seq<Round>): GameResult
    requires |pool| + score == count
    requires ValidDraws(rounds)
    decreases |rounds|
  {
    if score == count then
      GameResult(Won, score, pool, [NoMoreQuestions, GameOver(score), Prompt])
    else if rounds == [] then
      GameResult(Pending, score, pool, [])
    else
      var i := PickIndex(rounds[0].draw, |pool|);
      var ask := Ask(pool[i].question + "?");
      if IsCorrect(PromptReply(rounds[0].line), pool[i].answer) then
        var rest := Run(Splice(pool, i), score + 1, count, rounds[1..]);
        rest.(out := [ask, Hit(score + 1)] + rest.out)
      else
        GameResult(Lost, score, pool, [ask, Miss, GameOver(score), Prompt])
  }

  /**
   * What a game keeps and how it ends: records left plus score stay equal to the number of records
   * at the start; the score only grows. The game is won exactly when the score reaches that number, it waits for input only
   * when every round so far was right, and it is lost only before the rounds run out.
   */
  lemma {:induction false} RunInvariant(pool: seq<Quiz>, score: nat, count: nat, rounds: seq<Round>)
    requires |pool| + score == count
    requires ValidDraws(rounds)
    ensures var r := Run(pool, score, count, rounds);
      && |r.left| + r.score == count
      && score <= r.score
      && (r.phase == Won <==> r.score == count)
      && (r.phase == Won <==> r.left == [])
      && (r.phase == Pending ==> r.score == score + |rounds| < count)
      && (r.phase == Lost ==> r.score < count && r.score < score + |rounds|)
    decreases |rounds|
  {
    if score != count && rounds != [] {
      var i := PickIndex(rounds[0].draw, |pool|);
      if IsCorrect(PromptReply(rounds[0].line), pool[i].answer) {
        DrawsTail(rounds);
        RunInvariant(Splice(pool, i), score + 1, count, rounds[1..]);
      }
    }
  }

  /** The records left at the end are among those the game started from, each removed at most once. */
  lemma {:induction false} RunLeavesSubMultiset(pool: seq<Quiz>, score: nat, count: nat, rounds: seq<Round>)
    requires |pool| + score == count
    requires ValidDraws(rounds)
    ensures multiset(Run(pool, score, count, rounds).left) <= multiset(pool)
    decreases |rounds|
  {
    if score != count && rounds != [] {
      var i := PickIndex(rounds[0].draw, |pool|);
      if IsCorrect(PromptReply(rounds[0].line), pool[i].answer) {
        DrawsTail(rounds);
        SpliceMultiset(pool, i);
        RunLeavesSubMultiset(Splice(pool, i), score + 1, count, rounds[1..]);
      }
    }
  }

  /** Every record of the pool is one of those it was spliced from. */
  lemma SpliceSubset(pool: seq<Quiz>, i: nat)
    requires i < |pool|
    ensures forall q :: q in Splice(pool, i) ==> q in pool
  {
    SpliceMultiset(pool, i);
    forall q | q in Splice(pool, i) ensures q in pool {
      assert q in multiset(Splice(pool, i));
    }
  }

  /**
   * The rounds of a player who types back, each round, the stored answer of the record drawn:
   * one round per draw while records are left.
   */
  function Perfect(pool: seq<Quiz>, draws: seq<real>): (rounds: seq<Round>)
    requires forall k :: 0 <= k < |draws| ==> 0.0 <= draws[k] < 1.0
    ensures ValidDraws(rounds)
    ensures |rounds| == if |draws| < |pool| then |draws| else |pool|
    decreases |draws|
  {
    if pool == [] || draws == [] then []
    else
      var i := PickIndex(draws[0], |pool|);
      var rest := Perfect(Splice(pool, i), draws[1..]);
      assert forall k :: 1 <= k < |[Round(draws[0], pool[i].answer)] + rest| ==>
        ([Round(draws[0], pool[i].answer)] + rest)[k] == rest[k - 1];
      [Round(draws[0], pool[i].answer)] + rest
  }

  /**
   * A player who answers every record with its stored answer, given a draw for each record,
   * wins: every record is answered and the score reaches the number of records. The stored answers
   * must carry no surrounding white space, as every answer written through the prompts does.
   */
  lemma {:induction false} PerfectWins(pool: seq<Quiz>, score: nat, count: nat, draws: seq<real>)
    requires |pool| + score == count
    requires forall k :: 0 <= k < |draws| ==> 0.0 <= draws[k] < 1.0
    requires |pool| <= |draws|
    requires forall q :: q in pool ==> IsTrimmed(q.answer)
    ensures var r := Run(pool, score, count, Perfect(pool, draws));
      r.phase == Won && r.score == count && r.left == []
    decreases |draws|
  {
    if pool != [] {
      var i := PickIndex(draws[0], |pool|);
      var rounds := Perfect(pool, draws);
      var answer := pool[i].answer;
      assert rounds[0] == Round(draws[0], answer);
      assert rounds[1..] == Perfect(Splice(pool, i), draws[1..]);
      IsCorrectOnPromptReply(answer, answer);
      IsCorrectAcceptsAnswer(answer);
      SpliceSubset(pool, i);
      PerfectWins(Splice(pool, i), score + 1, count, draws[1..]);
    }
  }

  /** The questions a game put, in the order it asked them. */
  function Questions(out: seq<Event>): seq<string>
  {
    if out == [] then []
    else (if out[0].Ask? then [out[0].prompt] else []) + Questions(out[1..])
  }

  /** No two records of the pool share a question, as in a valid table. */
  predicate DistinctQuestions(pool: seq<Quiz>)
  {
    forall j, k :: 0 <= j < k < |pool| ==> pool[j].question != pool[k].question
  }

  lemma SpliceKeepsDistinct(pool: seq<Quiz>, i: nat)
    requires i < |pool| && DistinctQuestions(pool)
    ensures DistinctQuestions(Splice(pool, i))
    ensures forall q :: q in Splice(pool, i) ==> q.question != pool[i].question
  {
    var r := Splice(pool, i);
    assert forall k :: 0 <= k < |r| ==> r[k] == if k < i then pool[k] else pool[k + 1];
  }

  /** The prompt "question?" determines the question. */
  lemma PromptInjective(a: string, b: string)
    requires a + "?" == b + "?"
    ensures a == b
  {
    assert a == (a + "?")[..|a|];
    assert b == (b + "?")[..|b|];
  }

  lemma QuestionsOfHit(prompt: string, score: nat, rest: seq<Event>)
    ensures Questions([Ask(prompt), Hit(score)] + rest) == [prompt] + Questions(rest)
  {
    assert ([Ask(prompt), Hit(score)] + rest)[1..] == [Hit(score)] + rest;
    assert ([Hit(score)] + rest)[1..] == rest;
  }

  lemma QuestionsOfMiss(prompt: string, score: nat)
    ensures Questions([Ask(prompt), Miss, GameOver(score), Prompt]) == [prompt]
  {
    assert Questions([Prompt]) == [];
    assert [GameOver(score), Prompt][1..] == [Prompt];
    assert [Miss, GameOver(score), Prompt][1..] == [GameOver(score), Prompt];
    assert Questions([Miss, GameOver(score), Prompt]) == [];
    assert [Ask(prompt), Miss, GameOver(score), Prompt][1..] == [Miss, GameOver(score), Prompt];
  }

  lemma QuestionsOfEnd(score: nat)
    ensures Questions([NoMoreQuestions, GameOver(score), Prompt]) == []
  {
    assert Questions([Prompt]) == [];
    assert [GameOver(score), Prompt][1..] == [Prompt];
    assert [NoMoreQuestions, GameOver(score), Prompt][1..] == [GameOver(score), Prompt];
  }

  predicate NoDuplicates(xs: seq<string>)
  {
    forall j, k :: 0 <= j < k < |xs| ==> xs[j] != xs[k]
  }

  lemma NoDuplicatesCons(x: string, xs: seq<string>)
    requires NoDuplicates(xs) && x !in xs
    ensures NoDuplicates([x] + xs)
  {
    var ys := [x] + xs;
    forall j, k | 0 <= j < k < |ys| ensures ys[j] != ys[k] {
      assert ys[k] == xs[k - 1];
      if j > 0 {
        assert ys[j] == xs[j - 1];
      }
    }
  }

  /**
   * A game never asks the same question twice, and every question it asks is the question of
   * one of the records it started with (when no two records share a question).
   */
  lemma {:induction false} NoRepeat(pool: seq<Quiz>, score: nat, count: nat, rounds: seq<Round>)
    requires |pool| + score == count
    requires ValidDraws(rounds)
    requires DistinctQuestions(pool)
    ensures var asked := Questions(Run(pool, score, count, rounds).out);
      && NoDuplicates(asked)
      && (forall p :: p in asked ==> exists q :: q in pool && p == q.question + "?")
    decreases |rounds|
  {
    if score != count && rounds != [] {
      var i := PickIndex(rounds[0].draw, |pool|);
      var prompt := pool[i].question + "?";
      if IsCorrect(PromptReply(rounds[0].line), pool[i].answer) {
        DrawsTail(rounds);
        var rest := Run(Splice(pool, i), score + 1, count, rounds[1..]);
        SpliceKeepsDistinct(pool, i);
        SpliceSubset(pool, i);
        NoRepeat(Splice(pool, i), score + 1, count, rounds[1..]);
        QuestionsOfHit(prompt, score + 1, rest.out);
        var later := Questions(rest.out);
        forall p | p in later ensures p != prompt {
          var q :| q in Splice(pool, i) && p == q.question + "?";
          if p == prompt {
            PromptInjective(q.question, pool[i].question);
          }
        }
        NoDuplicatesCons(prompt, later);
      } else {
        QuestionsOfMiss(prompt, score);
      }
    } else if score == count {
      QuestionsOfEnd(score);
    }
  }

  /** The game, as playCmd keeps it: the records still to be answered and the running score. */
  class Game {
    var pool: seq<Quiz>
    var score: nat
    /** The number of records when the game started. */
    const count: nat

    predicate Valid()
      reads this
    {
      |pool| + score == count
    }

    constructor (quizzes: seq<Quiz>)
      ensures Valid() && pool == quizzes && score == 0 && count == |quizzes|
    {
      pool := quizzes;
      score := 0;
      count := |quizzes|;
    }

    /** The test that ends the game: the score has reached the number of records. */
    predicate Finished()
      reads this
    {
      score == count
    }

    /**
     * One answer to the record at index i: if right, the score goes up by one and that record is
     * spliced out of the pool; if wrong, nothing changes.
     */
    method Answer(i: nat, line: string) returns (correct: bool)
      requires Valid() && i < |pool|
      modifies this
      ensures Valid()
      ensures correct == IsCorrect(PromptReply(line), old(pool)[i].answer)
      ensures correct ==> score == old(score) + 1 && pool == Splice(old(pool), i)
      ensures !correct ==> score == old(score) && pool == old(pool)
    {
      var reply := PromptReply(line);
      correct := IsCorrect(reply, pool[i].answer);
      if correct {
        score := score + 1;
        pool := Splice(pool, i);
      }
    }
  }

  /**
   * playCmd over the records of the store, one round of input at a time, the recursion of playOne
   * written as a loop. It plays exactly as Run, leaves the store as it was, and ends won exactly
   * when every record was answered; with no records it is won at once with score 0.
   */
  method PlayCmd(store: QuizStore, rounds: seq<Round>) returns (phase: Phase, score: nat, out: seq<Event>)
    requires ValidDraws(rounds)
    ensures var r := Run(store.records, 0, |store.records|, rounds);
      phase == r.phase && score == r.score && out == r.out
    ensures score <= |store.records|
    ensures phase == Won <==> score == |store.records|
    ensures phase == Pending ==> score == |rounds| < |store.records|
    ensures store.records == [] ==> phase == Won && score == 0
  {
    ghost var all := Run(store.records, 0, |store.records|, rounds);
    RunInvariant(store.records, 0, |store.records|, rounds);
    var game := new Game(store.records);
    out := [];
    var k := 0;
    while !game.Finished() && k < |rounds|
      invariant game.Valid() && game.count == |store.records|
      invariant 0 <= k <= |rounds| && game.score == k
      invariant ValidDraws(rounds[k..])
      invariant var r := Run(game.pool, game.score, game.count, rounds[k..]);
        all == r.(out := out + r.out)
      decreases |rounds| - k
    {
      var i := PickIndex(rounds[k].draw, |game.pool|);
      var ask := Ask(game.pool[i].question + "?");
      assert rounds[k..][0] == rounds[k];
      assert rounds[k..][1..] == rounds[k + 1..];
      var correct := game.Answer(i, rounds[k].line);
      if !correct {
        out := out + [ask, Miss, GameOver(game.score), Prompt];
        phase, score := Lost, game.score;
        return;
      }
      out := out + [ask, Hit(game.score)];
      k := k + 1;
    }
    if game.Finished() {
      out := out + [NoMoreQuestions, GameOver(game.score), Prompt];
      phase := Won;
    } else {
      phase := Pending;
    }
    score := game.score;
  }
}
