// The bridge's mirror of the prompts it submitted, changed in place.
module Bridge {
  import opened SteeringModel

  datatype PromptConsumption = NonFinal(pendingCount: nat) | AtFinal

  class PromptMirror {
    var prompts: seq<string>

    constructor ()
      ensures prompts == []
    {
      prompts := [];
    }

    method PushBack(prompt: string)
      modifies this
      ensures prompts == old(prompts) + [prompt]
    {
      prompts := prompts + [prompt];
    }

    // Pops from the front until only the pending ones are left.
    method DropConsumed(pendingCount: nat) returns (consumed: nat)
      modifies this
      ensures consumed == Consumed(old(prompts), pendingCount)
      ensures prompts == old(prompts)[consumed..]
    {
      consumed := Consumed(prompts, pendingCount);
      var popped := 0;
      while popped < consumed
        invariant popped <= consumed <= |old(prompts)|
        invariant prompts == old(prompts)[popped..]
      {
        prompts := prompts[1..];
        popped := popped + 1;
      }
    }

    // A final event consumes nothing: the mirror is carried to the follow-up turn.
    method Reconcile(consumption: PromptConsumption) returns (consumed: nat)
      modifies this
      ensures consumed == match consumption
                          case NonFinal(pendingCount) => Consumed(old(prompts), pendingCount)
                          case AtFinal => 0
      ensures prompts == old(prompts)[consumed..]
    {
      match consumption {
        case NonFinal(pendingCount) =>
          consumed := DropConsumed(pendingCount);
        case AtFinal =>
          consumed := 0;
      }
    }
  }
}
