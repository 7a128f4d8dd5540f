/** Migration 006: rewriting the object-store endpoint inside texts, and undoing it. */
module Endpoints {

  const OLD_ENDPOINT := "https://s3.regru.cloud"
  const NEW_ENDPOINT := "https://s3.buckets.ru"

  /** SQL replace(): every occurrence of `p` from left to right, without overlaps, becomes `q`. */
  function Replace(text: string, p: string, q: string): string
    requires p != ""
  {
    if |text| < |p| then text
    else if p <= text then q + Replace(text[|p|..], p, q)
    else [text[0]] + Replace(text[1..], p, q)
  }

  predicate OccursAt(text: string, p: string, i: nat) {
    i <= |text| && p <= text[i..]
  }

  /** `column LIKE '%p%'`. */
  predicate Contains(text: string, p: string) {
    exists i: nat :: i <= |text| && OccursAt(text, p, i)
  }

  /** A pattern whose first character occurs nowhere else in it. */
  predicate Headed(p: string, h: char) {
    p != "" && p[0] == h && h !in p[1..]
  }

  /** Neither pattern is a prefix of the other. */
  predicate Apart(p: string, q: string) {
    !(p <= q) && !(q <= p)
  }

  lemma ContainsTail(text: string, p: string)
    requires text != ""
    ensures Contains(text, p) <==> p <= text || Contains(text[1..], p)
  {
    if Contains(text, p) {
      var i: nat :| i <= |text| && OccursAt(text, p, i);
      if i > 0 {
        assert text[i..] == text[1..][i - 1..];
        assert OccursAt(text[1..], p, i - 1);
      }
    }
    if p <= text {
      assert OccursAt(text, p, 0);
    }
    if Contains(text[1..], p) {
      var i: nat :| i <= |text[1..]| && OccursAt(text[1..], p, i);
      assert text[i + 1..] == text[1..][i..];
      assert OccursAt(text, p, i + 1);
    }
  }

  /** The statement's WHERE clause only skips rows replace() would leave alone. */
  lemma {:induction false} ReplaceWithoutMatch(text: string, p: string, q: string)
    requires p != "" && !Contains(text, p)
    ensures Replace(text, p, q) == text
  {
    if |text| >= |p| {
      ContainsTail(text, p);
      ReplaceWithoutMatch(text[1..], p, q);
    }
  }

  /** Where the head character is missing, the replaced text begins as the original did. */
  lemma {:induction false} HeadlessPrefix(text: string, p: string, q: string, h: char, w: string)
    requires Headed(p, h) && Headed(q, h) && h !in w
    ensures w <= Replace(text, p, q) <==> w <= text
  {
    if w != "" && |text| >= |p| {
      if p <= text {
        assert Replace(text, p, q)[0] == h && text[0] == h;
      } else {
        var tail := Replace(text[1..], p, q);
        HeadlessPrefix(text[1..], p, q, h, w[1..]);
        assert Replace(text, p, q)[1..] == tail;
        assert w <= Replace(text, p, q) <==> w[0] == text[0] && w[1..] <= tail;
        assert w <= text <==> w[0] == text[0] && w[1..] <= text[1..];
      }
    }
  }

  /** A pattern headed by `h` begins the replaced text only if it began the original. */
  lemma HeadedPrefix(text: string, p: string, q: string, h: char, w: string)
    requires Headed(p, h) && Headed(q, h) && Headed(w, h)
    requires |text| >= |p| && !(p <= text)
    ensures w <= Replace(text, p, q) <==> w <= text
  {
    var tail := Replace(text[1..], p, q);
    HeadlessPrefix(text[1..], p, q, h, w[1..]);
    assert Replace(text, p, q)[1..] == tail;
    assert w <= Replace(text, p, q) <==> w[0] == text[0] && w[1..] <= tail;
    assert w <= text <==> w[0] == text[0] && w[1..] <= text[1..];
  }

  /** No occurrence of `p` straddles the border of an inserted `q`. */
  lemma NoStraddle(q: string, rest: string, p: string, h: char, k: nat)
    requires Headed(p, h) && Headed(q, h) && Apart(p, q) && k < |q|
    ensures !(p <= (q + rest)[k..])
  {
  }

  /** After the replacement the pattern is gone from every text. */
  lemma {:induction false} ReplaceRemoves(text: string, p: string, q: string, h: char)
    requires Headed(p, h) && Headed(q, h) && Apart(p, q)
    ensures !Contains(Replace(text, p, q), p)
  {
    var r := Replace(text, p, q);
    if |text| < |p| {
    } else if p <= text {
      ReplaceRemoves(text[|p|..], p, q, h);
      var rest := Replace(text[|p|..], p, q);
      if Contains(r, p) {
        var i: nat :| i <= |r| && OccursAt(r, p, i);
        if i < |q| {
          NoStraddle(q, rest, p, h, i);
        } else {
          assert r[i..] == rest[i - |q|..];
          assert OccursAt(rest, p, i - |q|);
        }
      }
    } else {
      ReplaceRemoves(text[1..], p, q, h);
      HeadedPrefix(text, p, q, h, p);
      assert r[1..] == Replace(text[1..], p, q);
      ContainsTail(r, p);
    }
  }

  lemma ShortIsAlone(text: string, p: string, q: string)
    requires p != "" && |text| < |p|
    ensures Replace(text, p, q) == text
  {
  }

  lemma StepByOne(text: string, p: string, q: string)
    requires p != "" && text != "" && !(p <= text)
    ensures Replace(text, p, q) == [text[0]] + Replace(text[1..], p, q)
  {
    if |text| < |p| {
      ShortIsAlone(text[1..], p, q);
    }
  }

  /** Nothing is replaced where the head character does not occur. */
  lemma {:induction false} StepOver(w: string, rest: string, p: string, q: string, h: char)
    requires Headed(p, h) && h !in w
    ensures Replace(w + rest, p, q) == w + Replace(rest, p, q)
  {
    if w == "" {
      assert w + rest == rest;
    } else {
      assert (w + rest)[0] == w[0] && w[0] != h;
      StepByOne(w + rest, p, q);
      assert (w + rest)[1..] == w[1..] + rest;
      StepOver(w[1..], rest, p, q, h);
      assert w == [w[0]] + w[1..];
    }
  }

  lemma OtherIsNotFirst(rest: string, p: string, q: string)
    requires Apart(p, q)
    ensures !(p <= q + rest)
  {
  }

  /** Nor inside the other pattern, or across its border. */
  lemma StepOverOther(rest: string, p: string, q: string, h: char)
    requires Headed(p, h) && Headed(q, h) && Apart(p, q)
    ensures Replace(q + rest, p, q) == q + Replace(rest, p, q)
  {
    var text, w, replaced := q + rest, q[1..], Replace(rest, p, q);
    OtherIsNotFirst(rest, p, q);
    StepByOne(text, p, q);
    StepOver(w, rest, p, q, h);
    assert text[1..] == w + rest && text[0] == q[0];
    assert [q[0]] + (w + replaced) == q + replaced;
  }

  /** Replacing at the front. */
  lemma ReplaceFront(rest: string, p: string, q: string)
    requires p != ""
    ensures Replace(p + rest, p, q) == q + Replace(rest, p, q)
  {
    assert (p + rest)[|p|..] == rest;
  }

  /** Replacing there and back is replacing back alone. */
  lemma {:induction false} ThereAndBack(text: string, p: string, q: string, h: char)
    requires Headed(p, h) && Headed(q, h) && Apart(p, q)
    ensures Replace(Replace(text, p, q), q, p) == Replace(text, q, p)
  {
    if |text| < |p| {
    } else if p <= text {
      var rest := text[|p|..];
      assert text == p + rest;
      ThereAndBack(rest, p, q, h);
      ReplaceFront(Replace(rest, p, q), q, p);
      StepOverOther(rest, q, p, h);
    } else if q <= text {
      var rest := text[|q|..];
      assert text == q + rest;
      StepOverOther(rest, p, q, h);
      ThereAndBack(rest, p, q, h);
      ReplaceFront(Replace(rest, p, q), q, p);
      ReplaceFront(rest, q, p);
    } else {
      var r := Replace(text, p, q);
      ThereAndBack(text[1..], p, q, h);
      HeadedPrefix(text, p, q, h, q);
      assert r[1..] == Replace(text[1..], p, q);
      StepByOne(r, q, p);
      StepByOne(text, q, p);
    }
  }

  /** Replacing back restores every text that did not contain the new pattern. */
  lemma ReplaceBack(text: string, p: string, q: string, h: char)
    requires Headed(p, h) && Headed(q, h) && Apart(p, q) && !Contains(text, q)
    ensures Replace(Replace(text, p, q), q, p) == text
  {
    ThereAndBack(text, p, q, h);
    ReplaceWithoutMatch(text, q, p);
  }

  /******* The migration *******/

  /** One column of one row: SET col = replace(col, from, to) WHERE col LIKE '%from%'. */
  function Rewrite(text: string, from: string, to: string): string
    requires from != ""
  {
    if Contains(text, from) then Replace(text, from, to) else text
  }

  function Upgrade(text: string): string {
    Rewrite(text, OLD_ENDPOINT, NEW_ENDPOINT)
  }

  function Downgrade(text: string): string {
    Rewrite(text, NEW_ENDPOINT, OLD_ENDPOINT)
  }

  lemma RewriteIsReplace(text: string, from: string, to: string)
    requires from != ""
    ensures Rewrite(text, from, to) == Replace(text, from, to)
  {
    if !Contains(text, from) {
      ReplaceWithoutMatch(text, from, to);
    }
  }

  lemma EndpointsFit()
    ensures Headed(OLD_ENDPOINT, 'h') && Headed(NEW_ENDPOINT, 'h')
    ensures Apart(OLD_ENDPOINT, NEW_ENDPOINT)
  {
    assert OLD_ENDPOINT[11] == 'r' && NEW_ENDPOINT[11] == 'b';
  }

  /** The upgrade leaves no old endpoint in any text, so a second one changes nothing. */
  lemma UpgradeIsComplete(text: string)
    ensures !Contains(Upgrade(text), OLD_ENDPOINT)
    ensures Upgrade(Upgrade(text)) == Upgrade(text)
  {
    EndpointsFit();
    RewriteIsReplace(text, OLD_ENDPOINT, NEW_ENDPOINT);
    ReplaceRemoves(text, OLD_ENDPOINT, NEW_ENDPOINT, 'h');
  }

  /** The downgrade undoes the upgrade on exactly the texts that did not mention the new endpoint before. */
  lemma DowngradeUndoesUpgrade(text: string)
    ensures Downgrade(Upgrade(text)) == text <==> !Contains(text, NEW_ENDPOINT)
  {
    EndpointsFit();
    RewriteIsReplace(text, OLD_ENDPOINT, NEW_ENDPOINT);
    RewriteIsReplace(Upgrade(text), NEW_ENDPOINT, OLD_ENDPOINT);
    ReplaceRemoves(Upgrade(text), NEW_ENDPOINT, OLD_ENDPOINT, 'h');
    if !Contains(text, NEW_ENDPOINT) {
      ReplaceBack(text, OLD_ENDPOINT, NEW_ENDPOINT, 'h');
    }
  }

  /** And the other way round. */
  lemma UpgradeUndoesDowngrade(text: string)
    ensures Upgrade(Downgrade(text)) == text <==> !Contains(text, OLD_ENDPOINT)
  {
    EndpointsFit();
    RewriteIsReplace(text, NEW_ENDPOINT, OLD_ENDPOINT);
    RewriteIsReplace(Downgrade(text), OLD_ENDPOINT, NEW_ENDPOINT);
    ReplaceRemoves(Downgrade(text), OLD_ENDPOINT, NEW_ENDPOINT, 'h');
    if !Contains(text, OLD_ENDPOINT) {
      ReplaceBack(text, NEW_ENDPOINT, OLD_ENDPOINT, 'h');
    }
  }

  /** What the downgrade gives does not depend on whether the upgrade came before it, and the other way round. */
  lemma LastRewriteCounts(text: string)
    ensures Downgrade(Upgrade(text)) == Downgrade(text)
    ensures Upgrade(Downgrade(text)) == Upgrade(text)
  {
    EndpointsFit();
    RewriteIsReplace(text, OLD_ENDPOINT, NEW_ENDPOINT);
    RewriteIsReplace(text, NEW_ENDPOINT, OLD_ENDPOINT);
    RewriteIsReplace(Upgrade(text), NEW_ENDPOINT, OLD_ENDPOINT);
    RewriteIsReplace(Downgrade(text), OLD_ENDPOINT, NEW_ENDPOINT);
    ThereAndBack(text, OLD_ENDPOINT, NEW_ENDPOINT, 'h');
    ThereAndBack(text, NEW_ENDPOINT, OLD_ENDPOINT, 'h');
  }

  /** Two texts collide in the upgrade exactly when they are the same text once both speak of the old endpoint. */
  lemma UpgradeCollidesExactly(a: string, b: string)
    ensures Upgrade(a) == Upgrade(b) <==> Downgrade(a) == Downgrade(b)
  {
    LastRewriteCounts(a);
    LastRewriteCounts(b);
  }

  /** The same file under both endpoints: two paths of one task that the upgrade would make equal. */
  lemma UpgradeCanCollide(path: string)
    ensures OLD_ENDPOINT + path != NEW_ENDPOINT + path
    ensures Upgrade(OLD_ENDPOINT + path) == Upgrade(NEW_ENDPOINT + path)
  {
    EndpointsFit();
    RewriteIsReplace(OLD_ENDPOINT + path, OLD_ENDPOINT, NEW_ENDPOINT);
    RewriteIsReplace(NEW_ENDPOINT + path, OLD_ENDPOINT, NEW_ENDPOINT);
    ReplaceFront(path, OLD_ENDPOINT, NEW_ENDPOINT);
    StepOverOther(path, OLD_ENDPOINT, NEW_ENDPOINT, 'h');
  }

  /** Distinct paths stay distinct, so the unique constraint on paths holds, if none mentions the new endpoint yet. */
  lemma UpgradeKeepsPathsApart(a: string, b: string)
    requires a != b && !Contains(a, NEW_ENDPOINT) && !Contains(b, NEW_ENDPOINT)
    ensures Upgrade(a) != Upgrade(b)
  {
    DowngradeUndoesUpgrade(a);
    DowngradeUndoesUpgrade(b);
  }
}
