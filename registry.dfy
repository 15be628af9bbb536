/**
 * The two registries the tree is built from, as the YAML loader hands them
 * over: the controller registry (controllers.yaml) and the model registry
 * (models.yaml). Fields that never reach the output (cloud, region, the model
 * kind, uuid, branch) are kept so that the records match the source's shape.
 */
module Registry {

  /** One controller of the controller registry. `kind` is the YAML field `type`. */
  datatype Controller = Controller(cloud: string, region: string, kind: string, agentVersion: string)

  /** The controller registry: controllers by name, and the current one ("" when absent). */
  datatype Controllers = Controllers(controllers: map<string, Controller>, currentController: string)

  datatype Model = Model(uuid: string, branch: string)

  /** A model is either infrastructure-backed or container-backed; the tag never reaches the output. */
  datatype ModelType = Iaas(model: Model) | Caas(model: Model)

  /** The models of one controller, and the current one ("" when absent). */
  datatype ControllerModels = ControllerModels(models: map<string, ModelType>, currentModel: string)

  /** The model registry: the models of each controller, keyed by controller name. */
  datatype Models = Models(controllers: map<string, ControllerModels>)
}
