/** The arithmetic of epochs, shared by the state of one node and by the model of many. */
module EpochRules {

  function Max(a: nat, b: nat): nat {
    if a < b then b else a
  }

  /** clusterGetMaxEpoch: the greatest of a node's current epoch and the configEpochs it has on record. */
  ghost function MaxEpoch<Id(!new)>(config: map<Id, nat>, current: nat): (m: nat)
    ensures current <= m && forall k :: k in config ==> config[k] <= m
    ensures m == current || exists k :: k in config && config[k] == m
    decreases |config|
  {
    if config == map[] then current
    else
      var k :| k in config;
      assert config == (config - {k})[k := config[k]];
      Max(config[k], MaxEpoch(config - {k}, current))
  }

  /** What a node may bump to without consensus, if it may bump at all. */
  predicate MayBump(mine: nat, maxEpoch: nat) {
    mine == 0 || mine != maxEpoch
  }

  /** A packet from a master with our own configEpoch moves us iff the sender's name is the greater
      and our record of the sender agrees with the packet. */
  predicate Collides(mine: nat, announced: nat, recorded: nat, myName: nat, senderName: nat) {
    announced == mine && recorded == mine && myName < senderName
  }
}
