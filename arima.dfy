/** The placeholder ARIMA forecaster of the forecasting package: it remembers its order and
    whether it has been fitted, and answers fixed forecasts. */
module Arima {

  datatype Order = Order(p: int, d: int, q: int)

  /** Point forecasts with their lower and upper bounds, one entry per step. */
  datatype ForecastResult = ForecastResult(forecast: seq<real>, lowerBound: seq<real>, upperBound: seq<real>)

  datatype Evaluation = Evaluation(mae: real, rmse: real, mape: real)

  const DefaultOrder: Order := Order(1, 1, 1)

  /** `[x] * steps`; a negative count gives the empty list. */
  function Repeat(x: real, steps: int): (r: seq<real>)
    ensures |r| == if steps > 0 then steps else 0
    ensures forall i :: 0 <= i < |r| ==> r[i] == x
  {
    if steps <= 0 then [] else Repeat(x, steps - 1) + [x]
  }

  class ARIMAForecaster {
    var order: Order
    var isFitted: bool

    /** `ARIMAForecaster(order)`: a model of that order, not yet fitted. */
    constructor (order: Order)
      ensures this.order == order && !isFitted
    {
      this.order := order;
      isFitted := false;
    }

    /** `fit(data)`: marks the model as fitted whatever the data; the order is kept. */
    method Fit(data: seq<real>)
      modifies this
      ensures isFitted && order == old(order)
    {
      isFitted := true;
    }

    /** `forecast(steps)`: zeros before fitting; afterwards 60 with bounds 45 and 75. Reads
        the state without changing it. */
    method Forecast(steps: int) returns (r: ForecastResult)
      ensures |r.forecast| == |r.lowerBound| == |r.upperBound| == if steps > 0 then steps else 0
      ensures forall i :: 0 <= i < |r.forecast| ==>
                && r.lowerBound[i] <= r.forecast[i] <= r.upperBound[i]
                && (!isFitted ==> r.lowerBound[i] == r.forecast[i] == r.upperBound[i] == 0.0)
                && (isFitted ==> r.lowerBound[i] == 45.0 && r.forecast[i] == 60.0 && r.upperBound[i] == 75.0)
    {
      if !isFitted {
        return ForecastResult(Repeat(0.0, steps), Repeat(0.0, steps), Repeat(0.0, steps));
      }
      r := ForecastResult(Repeat(60.0, steps), Repeat(45.0, steps), Repeat(75.0, steps));
    }

    /** `evaluate(test_data)`: all metrics are zero, and the state is unchanged. */
    method Evaluate(testData: seq<real>) returns (r: Evaluation)
      ensures r.mae == 0.0 && r.rmse == 0.0 && r.mape == 0.0
    {
      r := Evaluation(0.0, 0.0, 0.0);
    }
  }

  /** `auto_arima(data)`: a new forecaster of order (1, 1, 1), fitted on the data. */
  method AutoArima(data: seq<real>) returns (forecaster: ARIMAForecaster)
    ensures fresh(forecaster)
    ensures forecaster.order == DefaultOrder && forecaster.isFitted
  {
    forecaster := new ARIMAForecaster(DefaultOrder);
    forecaster.Fit(data);
  }

  /** A fitted model's forecast for three steps has three entries of 60, within 45..75. */
  method FitThenForecastExample() returns (r: ForecastResult)
    ensures |r.forecast| == 3 && r.forecast == [60.0, 60.0, 60.0]
  {
    var forecaster := new ARIMAForecaster(DefaultOrder);
    forecaster.Fit([60.0, 65.0, 70.0, 68.0, 72.0, 75.0, 80.0]);
    r := forecaster.Forecast(3);
  }
}
