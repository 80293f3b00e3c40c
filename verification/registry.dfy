/**
  The bridge's `ClientList`: the websocket clients currently connected, each
  with the identity minted for it and its connection.
 */
module Registry {
  import opened Wrappers

  /** An opaque websocket connection. */
  type ConnHandle = nat

  datatype Client = Client(id: string, conn: ConnHandle)

  /** Number of entries carrying `id`. */
  function CountId(cl: seq<Client>, id: string): (n: nat)
    ensures n <= |cl|
    ensures n == 0 <==> !HasId(cl, id)
  {
    if |cl| == 0 then 0
    else (if cl[0].id == id then 1 else 0) + CountId(cl[1..], id)
  }

  predicate HasId(cl: seq<Client>, id: string) {
    exists i :: 0 <= i < |cl| && cl[i].id == id
  }

  /** No identity appears twice; what fresh UUIDs guarantee. */
  predicate UniqueIds(cl: seq<Client>) {
    forall i, j :: 0 <= i < j < |cl| ==> cl[i].id != cl[j].id
  }

  /** `addClient`: the new client goes at the end, everything else stays in order. */
  function AddClient(cl: seq<Client>, c: Client): (r: seq<Client>)
    ensures |r| == |cl| + 1 && r[..|cl|] == cl && r[|cl|] == c
  {
    cl + [c]
  }

  /**
    One step of `removeClient`'s `for index, cli := range ctx.cl.Clients`
    loop, as Go executes it. The range expression is evaluated once, so the
    loop runs over the original length and reads `arr[index]` from the
    shared backing array, which the in-place `append(s[:index], s[index+1:]...)`
    shifts left (the old last element stays behind, past the new length).
    `len` is the current length of `ctx.cl.Clients`. Slicing `s[index+1:]`
    with `index+1 > len` panics: `None`.
   */
  function RangeRemove(arr: seq<Client>, len: nat, index: nat, id: string): (r: Option<(seq<Client>, nat)>)
    requires len <= |arr| && index <= |arr|
    ensures r.Some? ==> |r.value.0| == |arr| && r.value.1 <= len
    decreases |arr| - index
  {
    if index == |arr| then Some((arr, len))
    else if arr[index].id != id then RangeRemove(arr, len, index + 1, id)
    else if index + 1 > len then None
    else RangeRemove(arr[..index] + arr[index + 1..len] + arr[len - 1..], len - 1, index + 1, id)
  }

  /** `removeClient` exactly as written; `None` is the runtime panic. */
  function RemoveClientAsWritten(cl: seq<Client>, id: string): (r: Option<seq<Client>>)
    ensures r.Some? ==> |r.value| <= |cl|
  {
    var (arr, len) :- RangeRemove(cl, |cl|, 0, id);
    Some(arr[..len])
  }

  /**
    Removal as evidently intended: drop every entry carrying `id` and keep
    the rest in order. The bridge uses this definition.
   */
  function RemoveClient(cl: seq<Client>, id: string): (r: seq<Client>)
    ensures forall c :: c in r <==> c in cl && c.id != id
    ensures |r| == |cl| - CountId(cl, id)
    ensures !HasId(r, id)
  {
    if |cl| == 0 then []
    else
      var rest := RemoveClient(cl[1..], id);
      assert forall c :: c in cl <==> c == cl[0] || c in cl[1..];
      if cl[0].id == id then rest else [cl[0]] + rest
  }

  /** The as-written loop passes over entries that do not match untouched. */
  lemma {:induction false} RangeRemoveNoMatch(arr: seq<Client>, len: nat, index: nat, id: string)
    requires len <= |arr| && index <= |arr|
    requires forall j :: index <= j < |arr| ==> arr[j].id != id
    ensures RangeRemove(arr, len, index, id) == Some((arr, len))
    decreases |arr| - index
  {
    if index < |arr| {
      RangeRemoveNoMatch(arr, len, index + 1, id);
    }
  }

  /** `removeClient` with an identity not in the list leaves the list unchanged. */
  lemma RemoveAsWrittenAbsent(cl: seq<Client>, id: string)
    requires !HasId(cl, id)
    ensures RemoveClientAsWritten(cl, id) == Some(cl)
  {
    RangeRemoveNoMatch(cl, |cl|, 0, id);
    assert cl[..|cl|] == cl;
  }

  /**
    `removeClient` with an identity present exactly once, at `k`, removes
    that entry only and keeps the others in their relative order.
   */
  lemma RemoveAsWrittenOnce(cl: seq<Client>, id: string, k: nat)
    requires k < |cl| && cl[k].id == id
    requires forall j :: 0 <= j < |cl| && j != k ==> cl[j].id != id
    ensures RemoveClientAsWritten(cl, id) == Some(cl[..k] + cl[k + 1..])
  {
    var n := |cl|;
    SkipTo(cl, n, 0, k, id);
    var arr' := cl[..k] + cl[k + 1..n] + cl[n - 1..];
    assert |arr'| == n;
    forall j | k + 1 <= j < n
      ensures arr'[j].id != id
    {
      if j < n - 1 { assert arr'[j] == cl[j + 1]; } else { assert arr'[j] == cl[n - 1]; }
    }
    RangeRemoveNoMatch(arr', n - 1, k + 1, id);
    assert arr'[..n - 1] == cl[..k] + cl[k + 1..];
  }

  /** The loop runs unchanged up to the first match. */
  lemma {:induction false} SkipTo(arr: seq<Client>, len: nat, index: nat, k: nat, id: string)
    requires len <= |arr| && index <= k < |arr|
    requires forall j :: index <= j < k ==> arr[j].id != id
    ensures RangeRemove(arr, len, index, id) == RangeRemove(arr, len, k, id)
    decreases k - index
  {
    if index < k {
      SkipTo(arr, len, index + 1, k, id);
    }
  }

  /** Two adjacent entries with the same identity make `removeClient` panic. */
  lemma RemoveAsWrittenPanics(c: Client)
    ensures RemoveClientAsWritten([c, c], c.id) == None
  {
    var arr: seq<Client> := [c, c];
    assert arr[..0] + arr[1..2] + arr[1..] == arr;
    assert RangeRemove(arr, 1, 1, c.id) == None;
    assert RangeRemove(arr, 2, 0, c.id) == None;
  }

  /** With a duplicated identity followed by another client, one copy survives the removal. */
  lemma RemoveAsWrittenLeavesCopy(c: Client, x: Client)
    requires x.id != c.id
    ensures RemoveClientAsWritten([c, c, x], c.id) == Some([c, x])
    ensures HasId([c, x], c.id)
  {
    var arr: seq<Client> := [c, c, x];
    var arr' := arr[..0] + arr[1..3] + arr[2..];
    assert arr' == [c, x, x];
    RangeRemoveNoMatch(arr', 2, 1, c.id);
    assert arr'[..2] == [c, x];
    assert [c, x][0].id == c.id;
  }

  /** `RemoveClient` on a list without `id` is the identity. */
  lemma {:induction false} RemoveAbsent(cl: seq<Client>, id: string)
    requires !HasId(cl, id)
    ensures RemoveClient(cl, id) == cl
    decreases |cl|
  {
    if |cl| > 0 {
      assert !HasId(cl[1..], id) by {
        forall i | 0 <= i < |cl[1..]| ensures cl[1..][i].id != id {
          assert cl[1..][i] == cl[i + 1];
        }
      }
      RemoveAbsent(cl[1..], id);
      assert cl == [cl[0]] + cl[1..];
    }
  }

  /** `RemoveClient` distributes over concatenation. */
  lemma {:induction false} RemoveAppend(a: seq<Client>, b: seq<Client>, id: string)
    ensures RemoveClient(a + b, id) == RemoveClient(a, id) + RemoveClient(b, id)
    decreases |a|
  {
    if |a| == 0 {
      assert a + b == b;
    } else {
      assert (a + b)[1..] == a[1..] + b;
      RemoveAppend(a[1..], b, id);
    }
  }

  /** `RemoveClient` with `id` present only at `k` cuts out exactly that entry. */
  lemma RemoveOnce(cl: seq<Client>, id: string, k: nat)
    requires k < |cl| && cl[k].id == id
    requires forall j :: 0 <= j < |cl| && j != k ==> cl[j].id != id
    ensures RemoveClient(cl, id) == cl[..k] + cl[k + 1..]
  {
    var pre, post := cl[..k], cl[k + 1..];
    assert cl == pre + [cl[k]] + post;
    assert !HasId(pre, id) by {
      forall i | 0 <= i < |pre| ensures pre[i].id != id { assert pre[i] == cl[i]; }
    }
    assert !HasId(post, id) by {
      forall i | 0 <= i < |post| ensures post[i].id != id { assert post[i] == cl[k + 1 + i]; }
    }
    RemoveAppend(pre + [cl[k]], post, id);
    RemoveAppend(pre, [cl[k]], id);
    RemoveAbsent(pre, id);
    RemoveAbsent(post, id);
    assert RemoveClient([cl[k]], id) == [];
  }

  /**
    While identities are unique, the as-written loop never panics and
    agrees with `RemoveClient`.
   */
  lemma RemoveAsWrittenAgrees(cl: seq<Client>, id: string)
    requires UniqueIds(cl)
    ensures RemoveClientAsWritten(cl, id) == Some(RemoveClient(cl, id))
  {
    if !HasId(cl, id) {
      RemoveAsWrittenAbsent(cl, id);
      RemoveAbsent(cl, id);
    } else {
      var k :| 0 <= k < |cl| && cl[k].id == id;
      forall j | 0 <= j < |cl| && j != k ensures cl[j].id != id {
        if j < k { assert cl[j].id != cl[k].id; } else { assert cl[k].id != cl[j].id; }
      }
      RemoveAsWrittenOnce(cl, id, k);
      RemoveOnce(cl, id, k);
    }
  }

  /** Adding a client with a fresh identity and removing it again restores the list. */
  lemma AddThenRemove(cl: seq<Client>, c: Client)
    requires !HasId(cl, c.id)
    ensures RemoveClient(AddClient(cl, c), c.id) == cl
  {
    RemoveAppend(cl, [c], c.id);
    RemoveAbsent(cl, c.id);
    assert cl + [] == cl;
  }

  /** Adding a client with a fresh identity keeps identities unique. */
  lemma AddKeepsUnique(cl: seq<Client>, c: Client)
    requires UniqueIds(cl) && !HasId(cl, c.id)
    ensures UniqueIds(AddClient(cl, c))
  {
    var r := AddClient(cl, c);
    forall i, j | 0 <= i < j < |r| ensures r[i].id != r[j].id {
      if j == |cl| { assert r[i] == cl[i]; } else { assert r[i] == cl[i] && r[j] == cl[j]; }
    }
  }

  /** Removal keeps identities unique. */
  lemma {:induction false} RemoveKeepsUnique(cl: seq<Client>, id: string)
    requires UniqueIds(cl)
    ensures UniqueIds(RemoveClient(cl, id))
    decreases |cl|
  {
    if |cl| > 0 {
      var tail := cl[1..];
      assert UniqueIds(tail) by {
        forall i, j | 0 <= i < j < |tail| ensures tail[i].id != tail[j].id {
          assert tail[i] == cl[i + 1] && tail[j] == cl[j + 1];
        }
      }
      RemoveKeepsUnique(tail, id);
      var rest := RemoveClient(tail, id);
      if cl[0].id != id {
        var r := [cl[0]] + rest;
        forall i, j | 0 <= i < j < |r| ensures r[i].id != r[j].id {
          if i == 0 {
            assert r[j] in rest;
            assert r[j] in tail;
            var m :| 0 <= m < |tail| && tail[m] == r[j];
            assert cl[m + 1] == r[j];
          } else {
            assert r[i] == rest[i - 1] && r[j] == rest[j - 1];
          }
        }
      }
    }
  }
}
