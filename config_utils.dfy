/** The configuration helpers: merging dictionaries left to right, the later one winning on a
    shared key, and checking that a dictionary holds every required key. */
module ConfigUtils {

  /** The merge of configs (dictionaries with string keys and values of any type V), specified as
      a left fold of map override (`m + c` takes c's value on a shared key). */
  function Merged<V>(configs: seq<map<string, V>>): (m: map<string, V>)
    ensures forall k :: k in m <==> HeldBySome(configs, k)
    decreases |configs|
  {
    if configs == [] then map[]
    else
      var front := configs[..|configs| - 1];
      var m := Merged(front) + configs[|configs| - 1];
      assert forall i :: 0 <= i < |front| ==> front[i] == configs[i];
      m
  }

  /** Some config holds the key k. */
  predicate HeldBySome<V>(configs: seq<map<string, V>>, k: string) {
    exists i :: 0 <= i < |configs| && k in configs[i]
  }

  /** `merge_configs(*configs)`: start from an empty dictionary and update it with each config
      in turn. The configs themselves are values and stay as they were. */
  method MergeConfigs<V>(configs: seq<map<string, V>>) returns (merged: map<string, V>)
    ensures merged == Merged(configs)
  {
    merged := map[];
    var i := 0;
    while i < |configs|
      invariant 0 <= i <= |configs|
      invariant merged == Merged(configs[..i])
    {
      assert configs[..i + 1][..i] == configs[..i];
      merged := merged + configs[i];
      i := i + 1;
    }
    assert configs[..i] == configs;
  }

  /** The merged value of a key is that of the last config holding it: later configs override
      earlier ones. */
  lemma {:induction false} MergedLastWins<V>(configs: seq<map<string, V>>, k: string, i: nat)
    requires i < |configs| && k in configs[i]
    requires forall j :: i < j < |configs| ==> k !in configs[j]
    ensures k in Merged(configs) && Merged(configs)[k] == configs[i][k]
    decreases |configs|
  {
    var n := |configs| - 1;
    var front, last := configs[..|configs| - 1], configs[|configs| - 1];
    if i == n {
      assert last == configs[i];
      Override(Merged(front), last, k);
    } else {
      assert i < n && k !in last;
      forall j | i < j < |front|
        ensures k !in front[j]
      {
        assert front[j] == configs[j];
      }
      assert front[i] == configs[i];
      MergedLastWins(front, k, i);
      Override(Merged(front), last, k);
    }
  }

  /** Map override: the right-hand map's value wins, the left-hand one shows through elsewhere. */
  lemma Override<V>(a: map<string, V>, b: map<string, V>, k: string)
    ensures k in b ==> k in a + b && (a + b)[k] == b[k]
    ensures k !in b && k in a ==> k in a + b && (a + b)[k] == a[k]
  {
  }

  /** Every merged value comes from the last config holding its key. */
  lemma MergedValueSource<V>(configs: seq<map<string, V>>, k: string)
    requires k in Merged(configs)
    ensures exists i :: (0 <= i < |configs| && k in configs[i] && Merged(configs)[k] == configs[i][k] &&
      forall j :: i < j < |configs| ==> k !in configs[j])
  {
    var i :| 0 <= i < |configs| && k in configs[i] && forall j :: i < j < |configs| ==> k !in configs[j] by {
      var last :| 0 <= last < |configs| && k in configs[last];
      LastHolder(configs, k, last);
    }
    MergedLastWins(configs, k, i);
  }

  /** Some config at or after `from` holds k last. */
  lemma {:induction false} LastHolder<V>(configs: seq<map<string, V>>, k: string, from: nat)
    requires from < |configs| && k in configs[from]
    ensures exists i :: from <= i < |configs| && k in configs[i] && forall j :: i < j < |configs| ==> k !in configs[j]
    decreases |configs| - from
  {
    if exists j :: from < j < |configs| && k in configs[j] {
      var j :| from < j < |configs| && k in configs[j];
      LastHolder(configs, k, j);
    }
  }

  /** The example the tests use: three configs, the second overriding one key of the first. */
  lemma MergeExample()
    ensures var m := Merged([map["key1" := "value1", "key2" := "value2"], map["key2" := "override", "key3" := "value3"], map["key4" := "value4"]]);
      && "key1" in m && m["key1"] == "value1" && "key2" in m && m["key2"] == "override"
      && "key3" in m && m["key3"] == "value3" && "key4" in m && m["key4"] == "value4"
  {
    var cs := [map["key1" := "value1", "key2" := "value2"], map["key2" := "override", "key3" := "value3"], map["key4" := "value4"]];
    assert "key1" !in cs[1] && "key1" !in cs[2] && "key2" !in cs[2] && "key3" !in cs[2];
    MergedLastWins(cs, "key1", 0);
    MergedLastWins(cs, "key2", 1);
    MergedLastWins(cs, "key3", 1);
    MergedLastWins(cs, "key4", 2);
  }

  /** `validate_config(config, required_keys)`: every required key is present. */
  function ValidateConfig<V>(config: map<string, V>, required: seq<string>): (ok: bool)
    ensures ok <==> forall i :: 0 <= i < |required| ==> required[i] in config
  {
    if required == [] then true
    else
      assert forall i :: 1 <= i < |required| ==> required[i] == required[1..][i - 1];
      required[0] in config && ValidateConfig(config, required[1..])
  }

  /** Only the required keys matter: a config passes exactly when its keys include them all, so
      keys beyond them never make it fail. */
  lemma ValidateByKeys<V>(config: map<string, V>, required: seq<string>, bigger: map<string, V>)
    ensures ValidateConfig(config, required) <==> (set i | 0 <= i < |required| :: required[i]) <= config.Keys
    ensures ValidateConfig(config, required) && config.Keys <= bigger.Keys ==> ValidateConfig(bigger, required)
  {
  }

  /** The cases the tests check: all present, some missing, none required. */
  lemma ValidateExamples()
    ensures ValidateConfig(map["key1" := 1, "key2" := 2, "key3" := 3], ["key1", "key2"])
    ensures !ValidateConfig(map["key1" := 1], ["key1", "key2", "key3"])
    ensures ValidateConfig(map["key1" := 1], [])
  {
    assert "key2" !in map["key1" := 1];
  }
}
