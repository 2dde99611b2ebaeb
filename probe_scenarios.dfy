/** The documented scenarios of the round-robin load balancer. */
module ProbeScenarios {
  import opened Wrappers
  import opened Probe

  /** After adding 1, 2 and 3, four calls return 1, 2, 3 and then 1 again. */
  method RoundRobin() returns (first: Option<int>, second: Option<int>, third: Option<int>, fourth: Option<int>)
    ensures first == Some(1) && second == Some(2) && third == Some(3) && fourth == Some(1)
  {
    var target := new LoadBalancer<int>();
    target.AddResource(1);
    target.AddResource(2);
    target.AddResource(3);
    first := target.GetResource();
    second := target.GetResource();
    third := target.GetResource();
    fourth := target.GetResource();
  }

  /** The same rotation, read off the general statement about k calls. */
  method RoundRobinByRotation() returns (served: seq<Option<int>>)
    ensures served == [Some(1), Some(2), Some(3), Some(1)]
  {
    var target := new LoadBalancer<int>();
    target.AddResource(1);
    target.AddResource(2);
    target.AddResource(3);
    served := GetMany(target, 4);
  }

  /** An empty balancer has nothing to hand out. */
  method GetFromEmpty() returns (r: Option<int>)
    ensures r == None
  {
    var target := new LoadBalancer<int>();
    r := target.GetResource();
  }
}
