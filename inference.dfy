/** The request and response rules of the model-server handler: which
    request content types are accepted, and how a prediction becomes the
    JSON response. Model loading and prediction (TensorFlow) are not part
    of this model. */
module Inference {
  import opened Wrappers
  import Preprocess
  import Diagnosis

  datatype Error =
    | ValueError(message: string)    // an unsupported content type
    | DecodeError(message: string)   // the imaging library could not read the body

  /** `input_fn`. `decoded` stands for what the imaging library makes of the
      request body (decode, convert to RGB, resize): an image or an error.
      It is consulted only once the content type has been accepted. */
  function InputFn(decoded: Result<Preprocess.RgbImage, string>, contentType: string)
    : (r: Result<Preprocess.Tensor, Error>)
    ensures r.Failure? && r.error.ValueError? <==>
      !("image/" <= contentType || contentType == "application/x-image")
    ensures r.Failure? && r.error.ValueError? ==>
      r.error.message == "Unsupported content type: " + contentType
    ensures r.Success? ==> decoded.Success? && r.value == Preprocess.Normalize(decoded.value)
    ensures ("image/" <= contentType || contentType == "application/x-image") && decoded.Success?
      ==> r.Success?
  {
    if "image/" <= contentType || contentType == "application/x-image" then
      match decoded
      case Success(img) => Success(Preprocess.Normalize(img))
      case Failure(e) => Failure(DecodeError(e))
    else
      Failure(ValueError("Unsupported content type: " + contentType))
  }

  /** The JSON values a response body holds. */
  datatype Json = JString(s: string) | JNumber(n: real)

  datatype Response = Response(body: map<string, Json>, contentType: string)

  const PositiveThreshold: real := 0.5

  /** `output_fn`: a two-way label at 0.5 and the prediction, as JSON. */
  function OutputFn(prediction: real, accept: string): (r: Response)
    ensures r.contentType == "application/json"
    ensures r.body.Keys == {"label", "probability"}
    ensures r.body["probability"] == JNumber(prediction)
    ensures r.body["label"] == JString("Pneumonia") <==> prediction >= PositiveThreshold
    ensures r.body["label"] == JString("Normal") <==> prediction < PositiveThreshold
  {
    var verdict := if prediction >= PositiveThreshold then "Pneumonia" else "Normal";
    Response(map["label" := JString(verdict), "probability" := JNumber(prediction)], "application/json")
  }

  /** The `accept` argument does not change the response. */
  lemma OutputIgnoresAccept(prediction: real, a: string, b: string)
    ensures OutputFn(prediction, a) == OutputFn(prediction, b)
  {
  }

  /** The model server and the application agree on "Normal": the server's
      label is "Normal" exactly when the application's diagnosis is, and
      "Pneumonia" exactly when the application reports some pneumonia. */
  lemma OutputAgreesWithDiagnosis(prediction: real, accept: string)
    ensures OutputFn(prediction, accept).body["label"] == JString("Normal")
      <==> Diagnosis.MapProbability(prediction) == Diagnosis.Normal
    ensures OutputFn(prediction, accept).body["label"] == JString("Pneumonia")
      <==> Diagnosis.MapProbability(prediction).Severity() >= 1
  {
  }
}
