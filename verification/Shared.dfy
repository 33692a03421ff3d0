/** What several modules share. */
module Shared {
  datatype Option<+T> = None | Some(value: T)

  type AgentId = string

  type Key = string

  function Lookup<K, V>(m: map<K, V>, k: K): Option<V> {
    if k in m then Some(m[k]) else None
  }

  predicate Contains(s: string, part: string) {
    exists i :: 0 <= i <= |s| && part <= s[i..]
  }

  lemma ContainsMeans(hay: string, needle: string)
    ensures Contains(hay, needle) <==> exists before, after :: hay == before + needle + after
  {
    if i :| 0 <= i <= |hay| && needle <= hay[i..] {
      assert hay == hay[..i] + needle + hay[i + |needle|..];
    }
    if before, after :| hay == before + needle + after {
      assert hay[|before|..] == needle + after;
    }
  }
}
