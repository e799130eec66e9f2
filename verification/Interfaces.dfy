/** An interface of the collection; its flags and counts are updated in place. */
module Interfaces {
  import opened Graphs

  class Interface {
    const ifname: Name
    const config: Config
    var isPending: bool
    var isExplicit: bool
    var refcount: nat
    var rdependsCount: nat

    constructor (ifname: Name, config: Config)
      ensures this.ifname == ifname && this.config == config
      ensures !isPending && isExplicit == config.isAuto && refcount == 0 && rdependsCount == 0
    {
      this.ifname := ifname;
      this.config := config;
      isPending := false;
      isExplicit := config.isAuto;
      refcount := 0;
      rdependsCount := 0;
    }
  }
}
